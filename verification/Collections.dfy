/**
 The containers both languages of the repository lean on: optional values,
 dictionaries that remember insertion order, and a stable sort.
 */
module Collections {
  datatype Option<+T> = None | Some(value: T)

  ghost predicate Distinct<T>(s: seq<T>) {
    forall i, j :: 0 <= i < j < |s| ==> s[i] != s[j]
  }

  lemma DistinctConcat<T>(a: seq<T>, b: seq<T>)
    requires Distinct(a) && Distinct(b)
    requires forall x :: x in a ==> x !in b
    ensures Distinct(a + b)
  {
    forall i, j | 0 <= i < j < |a + b| ensures (a + b)[i] != (a + b)[j] {
      if i < |a| <= j {
        assert a[i] in a && b[j - |a|] in b;
      }
    }
  }

  lemma CatAssociates<T>(a: seq<T>, b: seq<T>, c: seq<T>)
    ensures (a + b) + c == a + (b + c)
  {
  }

  /** `s` lists every member of `members` once: one of the orders a set may be iterated in. */
  ghost predicate IsOrderOf<T(!new)>(s: seq<T>, members: set<T>) {
    Distinct(s) && forall x :: x in s <==> x in members
  }

  /** A dictionary iterated in the order its keys first came in. */
  datatype Dict<K(!new), V> = Dict(keys: seq<K>, at: map<K, V>)
  {
    ghost predicate Valid() {
      IsOrderOf(keys, at.Keys)
    }

    function Set(k: K, v: V): Dict<K, V> {
      Dict(if k in at then keys else keys + [k], at[k := v])
    }
  }

  lemma DictSetValid<K(!new), V>(d: Dict<K, V>, k: K, v: V)
    requires d.Valid()
    ensures d.Set(k, v).Valid()
  {
    var d' := d.Set(k, v);
    forall x ensures x in d'.keys <==> x in d'.at.Keys {
      assert x in d'.keys <==> x in d.keys || x == k;
    }
  }

  /** A multi-map read: a missing key holds the empty list. */
  function Lookup<K, T>(m: map<K, seq<T>>, k: K): seq<T> {
    if k in m then m[k] else []
  }

  ghost predicate Ordering<T(!new)>(le: (T, T) -> bool) {
    && (forall x, y :: le(x, y) || le(y, x))
    && (forall x, y, z :: le(x, y) && le(y, z) ==> le(x, z))
  }

  ghost predicate SortedBy<T>(s: seq<T>, le: (T, T) -> bool) {
    forall i, j :: 0 <= i < j < |s| ==> le(s[i], s[j])
  }

  function Insert<T>(x: T, s: seq<T>, le: (T, T) -> bool): seq<T> {
    if s == [] || le(x, s[0]) then [x] + s else [s[0]] + Insert(x, s[1..], le)
  }

  /** Stable: an element goes in front of the later ones it ties with. */
  function Sort<T>(s: seq<T>, le: (T, T) -> bool): seq<T> {
    if s == [] then [] else Insert(s[0], Sort(s[1..], le), le)
  }

  lemma {:induction false} InsertKeeps<T>(x: T, s: seq<T>, le: (T, T) -> bool)
    ensures multiset(Insert(x, s, le)) == multiset(s) + multiset{x}
    ensures |Insert(x, s, le)| == |s| + 1
  {
    if !(s == [] || le(x, s[0])) {
      InsertKeeps(x, s[1..], le);
      assert s == [s[0]] + s[1..];
    }
  }

  lemma {:induction false} InsertSorts<T(!new)>(x: T, s: seq<T>, le: (T, T) -> bool)
    requires Ordering(le) && SortedBy(s, le)
    ensures SortedBy(Insert(x, s, le), le)
  {
    var r := Insert(x, s, le);
    if !(s == [] || le(x, s[0])) {
      var tail := Insert(x, s[1..], le);
      InsertSorts(x, s[1..], le);
      InsertKeeps(x, s[1..], le);
      forall j | 0 <= j < |tail| ensures le(s[0], tail[j]) {
        assert tail[j] in multiset(tail);
        if tail[j] != x { assert tail[j] in s[1..]; }
      }
    }
  }

  lemma {:induction false} SortPermutes<T>(s: seq<T>, le: (T, T) -> bool)
    ensures multiset(Sort(s, le)) == multiset(s)
    ensures |Sort(s, le)| == |s|
  {
    hide Insert;
    if s == [] {
    } else {
      SortPermutes(s[1..], le);
      InsertKeeps(s[0], Sort(s[1..], le), le);
      assert s == [s[0]] + s[1..];
    }
  }

  lemma SortKeeps<T>(s: seq<T>, le: (T, T) -> bool)
    ensures multiset(Sort(s, le)) == multiset(s)
    ensures |Sort(s, le)| == |s|
    ensures forall x :: x in Sort(s, le) <==> x in s
  {
    hide Sort;
    SortPermutes(s, le);
    forall x ensures x in Sort(s, le) <==> x in s {
      assert x in Sort(s, le) <==> x in multiset(Sort(s, le));
      assert x in s <==> x in multiset(s);
    }
  }

  /** `x` stands somewhere before `y`. */
  ghost predicate Precedes<T>(s: seq<T>, x: T, y: T) {
    exists i, j :: 0 <= i < j < |s| && s[i] == x && s[j] == y
  }

  lemma InsertPlace<T>(x: T, s: seq<T>, le: (T, T) -> bool) returns (p: nat)
    ensures p <= |s| && Insert(x, s, le) == s[..p] + [x] + s[p..]
    ensures forall k :: 0 <= k < p ==> !le(x, s[k])
  {
    if s == [] || le(x, s[0]) {
      p := 0;
    } else {
      var q := InsertPlace(x, s[1..], le);
      p := q + 1;
      assert s[..p] == [s[0]] + s[1..][..q] && s[p..] == s[1..][q..];
      forall k | 0 <= k < p ensures !le(x, s[k]) {
        if k > 0 { assert s[k] == s[1..][k - 1]; }
      }
    }
  }

  /** Of what `t` puts first although it could as well come second, `s` had it first too. */
  ghost predicate KeepsTies<T>(t: seq<T>, s: seq<T>, le: (T, T) -> bool) {
    forall k, l :: 0 <= k < l < |t| && le(t[l], t[k]) ==> Precedes(s, t[k], t[l])
  }

  /** What ties keeps its order. */
  lemma {:induction false} SortStable<T>(s: seq<T>, le: (T, T) -> bool)
    ensures KeepsTies(Sort(s, le), s, le)
  {
    hide Sort, Insert, KeepsTies;
    if s == [] {
      SortKeeps(s, le);
      assert KeepsTies(Sort(s, le), s, le) by { NoTies(Sort(s, le), s, le); }
    } else {
      var rest := s[1..];
      SortStable(rest, le);
      SortKeeps(rest, le);
      SortStep(s, le);
      var p := InsertPlace(s[0], Sort(rest, le), le);
      InsertKeepsTies(s, Sort(rest, le), p, le);
    }
  }

  lemma NoTies<T>(t: seq<T>, s: seq<T>, le: (T, T) -> bool)
    requires t == []
    ensures KeepsTies(t, s, le)
  {
  }

  lemma InsertKeepsTies<T>(s: seq<T>, sorted: seq<T>, p: nat, le: (T, T) -> bool)
    requires s != [] && p <= |sorted| && KeepsTies(sorted, s[1..], le) && forall x :: x in sorted <==> x in s[1..]
    requires forall k :: 0 <= k < p ==> !le(s[0], sorted[k])
    ensures KeepsTies(sorted[..p] + [s[0]] + sorted[p..], s, le)
  {
    hide Precedes;
    var result := sorted[..p] + [s[0]] + sorted[p..];
    forall k, l | 0 <= k < l < |result| && le(result[l], result[k]) ensures Precedes(s, result[k], result[l]) {
      if k == p {
        assert result[l] == sorted[l - 1] && sorted[l - 1] in sorted;
        FirstPrecedes(s, result[l]);
      } else {
        assert l != p;
        var k', l' := if k < p then k else k - 1, if l < p then l else l - 1;
        assert result[k] == sorted[k'] && result[l] == sorted[l'];
        PrecedesLater(s, result[k], result[l]);
      }
    }
  }

  lemma FirstPrecedes<T>(s: seq<T>, y: T)
    requires s != [] && y in s[1..]
    ensures Precedes(s, s[0], y)
  {
    var j :| 0 <= j < |s[1..]| && s[1..][j] == y;
    assert s[j + 1] == y;
  }

  lemma SortStep<T>(s: seq<T>, le: (T, T) -> bool)
    requires s != []
    ensures Sort(s, le) == Insert(s[0], Sort(s[1..], le), le)
  {
  }

  lemma PrecedesLater<T>(s: seq<T>, x: T, y: T)
    requires s != [] && Precedes(s[1..], x, y)
    ensures Precedes(s, x, y)
  {
    var i, j :| 0 <= i < j < |s[1..]| && s[1..][i] == x && s[1..][j] == y;
    assert s[i + 1] == x && s[j + 1] == y;
  }

  lemma {:induction false} SortSorts<T(!new)>(s: seq<T>, le: (T, T) -> bool)
    requires Ordering(le)
    ensures SortedBy(Sort(s, le), le)
  {
    if s == [] {
    } else {
      SortSorts(s[1..], le);
      InsertSorts(s[0], Sort(s[1..], le), le);
    }
  }

  lemma {:induction false} SortDistinct<T>(s: seq<T>, le: (T, T) -> bool)
    requires Distinct(s)
    ensures Distinct(Sort(s, le))
  {
    SortKeeps(s, le);
    DistinctIffOnce(s);
    DistinctIffOnce(Sort(s, le));
  }

  lemma {:induction false} DistinctIffOnce<T>(s: seq<T>)
    ensures Distinct(s) <==> forall x :: multiset(s)[x] <= 1
  {
    if s == [] {
    } else {
      var n := |s| - 1;
      assert s == s[..n] + [s[n]];
      DistinctIffOnce(s[..n]);
      if Distinct(s) {
        forall x ensures multiset(s)[x] <= 1 {
          if x == s[n] {
            assert x !in s[..n];
          }
        }
      } else {
        var i, j :| 0 <= i < j < |s| && s[i] == s[j];
        if j == n {
          assert s[i] in s[..n];
          assert multiset(s)[s[n]] >= 2;
        } else {
          assert s[..n][i] == s[..n][j];
          var x :| multiset(s[..n])[x] > 1;
          assert multiset(s)[x] > 1;
        }
      }
    }
  }
}
