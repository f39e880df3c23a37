/**
 Where the columns of a process stand (scripts/bpmn_add_di.py, `Process.layout`), said
 without the layout's own functions: what a median of predecessors is, and what is
 ordered and centred by it.
 */
module BpmnMedian {
  import opened Collections
  import opened Chains
  import opened BpmnLayers
  import opened BpmnGeometry
  import opened BpmnLayout

  // ----- medians

  /** How many of the ids have a centre, how many a smaller one than `m`, how many a larger; repeats count. */
  ghost function Known(ids: seq<Id>, y: map<Id, real>): nat {
    if ids == [] then 0 else Known(ids[1..], y) + if ids[0] in y then 1 else 0
  }

  ghost function Smaller(ids: seq<Id>, y: map<Id, real>, m: real): nat {
    if ids == [] then 0 else Smaller(ids[1..], y, m) + if ids[0] in y && y[ids[0]] < m then 1 else 0
  }

  ghost function Larger(ids: seq<Id>, y: map<Id, real>, m: real): nat {
    if ids == [] then 0 else Larger(ids[1..], y, m) + if ids[0] in y && y[ids[0]] > m then 1 else 0
  }

  /** The upper median of the centres known: half of them, rounded down, may be smaller, and less than half larger. */
  ghost predicate IsMedian(ids: seq<Id>, y: map<Id, real>, base: real, m: real) {
    var k := Known(ids, y);
    if k == 0 then m == base
    else
      && (exists i :: 0 <= i < |ids| && ids[i] in y && y[ids[i]] == m)
      && Smaller(ids, y, m) <= k / 2 && Larger(ids, y, m) <= k - 1 - k / 2
  }

  function Less(s: seq<real>, m: real): nat {
    if s == [] then 0 else Less(s[1..], m) + if s[0] < m then 1 else 0
  }

  function More(s: seq<real>, m: real): nat {
    if s == [] then 0 else More(s[1..], m) + if s[0] > m then 1 else 0
  }

  lemma {:induction false} KnownCounts(ids: seq<Id>, y: map<Id, real>, m: real)
    ensures |KnownYs(ids, y)| == Known(ids, y) && Less(KnownYs(ids, y), m) == Smaller(ids, y, m) && More(KnownYs(ids, y), m) == Larger(ids, y, m)
    ensures forall x :: x in KnownYs(ids, y) ==> exists i :: 0 <= i < |ids| && ids[i] in y && y[ids[i]] == x
  {
    if ids == [] {
    } else {
      var rest := KnownYs(ids[1..], y);
      KnownCounts(ids[1..], y, m);
      if ids[0] in y {
        assert ([y[ids[0]]] + rest)[1..] == rest;
      } else {
        assert [] + rest == rest;
      }
      forall x | x in KnownYs(ids, y) ensures exists i :: 0 <= i < |ids| && ids[i] in y && y[ids[i]] == x {
        if x in rest {
          var i :| 0 <= i < |ids[1..]| && ids[1..][i] in y && y[ids[1..][i]] == x;
          assert ids[i + 1] == ids[1..][i];
        }
      }
    }
  }

  lemma {:induction false} InsertCounts(x: real, s: seq<real>, m: real)
    ensures Less(Insert(x, s, RealLe), m) == Less(s, m) + if x < m then 1 else 0
    ensures More(Insert(x, s, RealLe), m) == More(s, m) + if x > m then 1 else 0
  {
    if s == [] || RealLe(x, s[0]) {
      assert ([x] + s)[1..] == s;
    } else {
      InsertCounts(x, s[1..], m);
      var r := Insert(x, s[1..], RealLe);
      assert ([s[0]] + r)[1..] == r;
    }
  }

  lemma {:induction false} SortCounts(s: seq<real>, m: real)
    ensures Less(Sort(s, RealLe), m) == Less(s, m) && More(Sort(s, RealLe), m) == More(s, m)
  {
    hide Insert;
    if s == [] {
    } else {
      SortCounts(s[1..], m);
      InsertCounts(s[0], Sort(s[1..], RealLe), m);
    }
  }

  lemma {:induction false} SortedMore(s: seq<real>, m: real)
    ensures More(s, m) <= |s|
    ensures (forall i :: 0 <= i < |s| ==> s[i] <= m) ==> More(s, m) == 0
    ensures (forall i :: 0 <= i < |s| ==> s[i] >= m) ==> Less(s, m) == 0
  {
    if s == [] {
    } else {
      SortedMore(s[1..], m);
    }
  }

  /** In a sorted list, what stands at `p` has at most `p` smaller and at most the rest larger. */
  lemma {:induction false} SortedCounts(s: seq<real>, p: nat)
    requires SortedBy(s, RealLe) && p < |s|
    ensures Less(s, s[p]) <= p && More(s, s[p]) <= |s| - 1 - p
  {
    if p == 0 {
      SortedMore(s, s[0]);
      SortedMore(s[1..], s[0]);
      assert forall i :: 0 <= i < |s| ==> RealLe(s[0], s[i]) || i == 0;
    } else {
      SortedCounts(s[1..], p - 1);
      assert RealLe(s[0], s[p]);
    }
  }

  /** The place a node is given by its predecessors is their median. */
  lemma MedianIs(ids: seq<Id>, y: map<Id, real>, base: real)
    ensures IsMedian(ids, y, base, MedianY(ids, y, base))
  {
    hide KnownYs, Sort, Less, More, Known, Smaller, Larger;
    var m := MedianY(ids, y, base);
    var known := KnownYs(ids, y);
    var ys := Sort(known, RealLe);
    KnownCounts(ids, y, m);
    SortKeeps(known, RealLe);
    if ys != [] {
      assert Ordering(RealLe);
      SortSorts(known, RealLe);
      SortedCounts(ys, |ys| / 2);
      SortCounts(known, m);
      assert m in ys && m in known;
    }
  }

  lemma {:induction false} CountsCover(ids: seq<Id>, y: map<Id, real>, m: real, m': real)
    requires m < m'
    ensures Smaller(ids, y, m') + Larger(ids, y, m) >= Known(ids, y)
  {
    if ids == [] {
    } else {
      CountsCover(ids[1..], y, m, m');
    }
  }

  /** There is only one. */
  lemma MedianUnique(ids: seq<Id>, y: map<Id, real>, base: real, m: real, m': real)
    requires IsMedian(ids, y, base, m) && IsMedian(ids, y, base, m')
    ensures m == m'
  {
    hide Known, Smaller, Larger;
    if m < m' { CountsCover(ids, y, m, m'); }
    if m' < m { CountsCover(ids, y, m', m); }
  }

  // ----- columns

  /** The centres of the layers to the left of one. */
  ghost function CentresLeftOf(at: map<Id, Shape>, layerOf: map<Id, nat>, layer: nat): map<Id, real> {
    map v | v in layerOf && layerOf[v] < layer && v in at :: at[v].cy
  }

  ghost function Sum(xs: seq<real>): real {
    if xs == [] then 0.0 else Sum(xs[..|xs| - 1]) + xs[|xs| - 1]
  }

  ghost function ValuesOf(col: seq<Id>, f: map<Id, real>): seq<real>
    requires forall v :: v in col ==> v in f
  {
    seq(|col|, i requires 0 <= i < |col| => assert col[i] in col; f[col[i]])
  }

  /** The column's nodes stand 160 px to the right of the column before and 100 px under each other. */
  ghost predicate StandsEvenly(col: seq<Id>, at: map<Id, Shape>, layer: nat) {
    && (forall v :: v in col ==> v in at && at[v].cx == 180.0 + 160.0 * layer as real)
    && forall i :: 0 <= i < |col| ==> at[col[i]].cy == at[col[0]].cy + 100.0 * i as real
  }

  /** Halfway between its first and its last node. */
  ghost function Middle(col: seq<Id>, at: map<Id, Shape>): real
    requires col != [] && forall v :: v in col ==> v in at
  {
    (at[col[0]].cy + at[col[|col| - 1]].cy) / 2.0
  }

  lemma SlotsEven(col: seq<Id>, y: map<Id, real>, center: real)
    requires Evenly(col, y, center) && col != []
    ensures forall i :: 0 <= i < |col| ==> col[i] in y && y[col[i]] == y[col[0]] + 100.0 * i as real
    ensures (y[col[0]] + y[col[|col| - 1]]) / 2.0 == center
  {
  }

  lemma {:induction false} TotalIsSum(col: seq<Id>, f: map<Id, real>)
    requires forall v :: v in col ==> v in f
    ensures Total(col, f) == Sum(ValuesOf(col, f))
  {
    if col == [] {
    } else {
      TotalIsSum(col[1..], f);
      assert ValuesOf(col, f) == [f[col[0]]] + ValuesOf(col[1..], f);
      SumFront(f[col[0]], ValuesOf(col[1..], f));
    }
  }

  lemma {:induction false} SumFront(x: real, xs: seq<real>)
    ensures Sum([x] + xs) == x + Sum(xs)
  {
    if xs == [] {
      assert [x] + xs == [x] && [x][..0] == [];
    } else {
      var rest := xs[..|xs| - 1];
      SumFront(x, rest);
      assert ([x] + xs)[..|[x] + xs| - 1] == [x] + rest;
    }
  }

  /** The first column is spread evenly around the base line. */
  lemma FirstColumn(at: map<Id, Shape>, layerOf: map<Id, nat>, columns: seq<seq<Id>>, incoming: map<Id, seq<Id>>, base: real)
    requires IsArranged(at, layerOf, columns, incoming, base) && columns != [] && columns[0] != []
    ensures StandsEvenly(columns[0], at, 0) && Middle(columns[0], at) == base
  {
    hide Slot, KeyLe, Total, Medians, IsArranged, Evenly, CentresOf, Below, CentresLeftOf;
    var col, y := columns[0], CentresOf(at, layerOf.Keys);
    ColumnKnown(at, layerOf, columns, incoming, base, 0);
    CentresKnown(col, at, layerOf.Keys);
    SpreadEvenly(col, at, y, 0, base);
  }

  lemma SpreadEvenly(col: seq<Id>, at: map<Id, Shape>, y: map<Id, real>, layer: nat, center: real)
    requires Evenly(col, y, center) && col != []
    requires forall v :: v in col ==> v in at && at[v].cx == 180.0 + 160.0 * layer as real && v in y && y[v] == at[v].cy
    ensures StandsEvenly(col, at, layer) && Middle(col, at) == center
  {
    hide Slot, Evenly;
    SlotsEven(col, y, center);
    Centred(col, at, y, center);
    forall i | 0 <= i < |col| ensures at[col[i]].cy == at[col[0]].cy + 100.0 * i as real {
      assert col[i] in col && col[0] in col;
    }
  }

  /** What a later column promises, by the layout's own medians. */
  lemma ColumnParts(col: seq<Id>, layer: nat, y: map<Id, real>, below: map<Id, real>, incoming: map<Id, seq<Id>>, base: real)
    requires IsColumn(col, layer, y, below, incoming, base) && layer > 0 && col != []
    ensures var medians := Medians(col, incoming, below, base);
      && (forall v :: v in col ==> v in medians && medians[v] == MedianY(Lookup(incoming, v), below, base))
      && (forall i, j :: 0 <= i < j < |col| ==> col[i] in medians && col[j] in medians && medians[col[i]] <= medians[col[j]])
      && Evenly(col, y, Total(col, medians) / |col| as real)
  {
    hide MedianY, Total, Evenly;
    var medians := Medians(col, incoming, below, base);
    forall i, j | 0 <= i < j < |col| ensures col[i] in medians && col[j] in medians && medians[col[i]] <= medians[col[j]] {
      assert col[i] in col && col[j] in col && KeyLe(col[i], col[j], medians);
    }
  }

  lemma ColumnKnown(at: map<Id, Shape>, layerOf: map<Id, nat>, columns: seq<seq<Id>>, incoming: map<Id, seq<Id>>, base: real, layer: nat)
    requires IsArranged(at, layerOf, columns, incoming, base) && layer < |columns|
    ensures Distinct(columns[layer]) && forall v :: v in columns[layer] <==> v in layerOf && layerOf[v] == layer
    ensures forall v :: v in columns[layer] ==> v in at && at[v].cx == 180.0 + 160.0 * layer as real && CentresOf(at, layerOf.Keys)[v] == at[v].cy
    ensures IsColumn(columns[layer], layer, CentresOf(at, layerOf.Keys), Below(CentresOf(at, layerOf.Keys), layerOf, layer), incoming, base)
    ensures Below(CentresOf(at, layerOf.Keys), layerOf, layer) == CentresLeftOf(at, layerOf, layer)
  {
    hide IsColumn;
    assert IsOrderOf(columns[layer], set v | v in layerOf && layerOf[v] == layer);
  }

  /**
   In every other column each node has the median of its predecessors to the left, or the base
   line where there are none. The nodes are in the order of these and spread evenly around their
   mean; a node alone stands at its own.
   */
  lemma ColumnByMedians(at: map<Id, Shape>, layerOf: map<Id, nat>, columns: seq<seq<Id>>, incoming: map<Id, seq<Id>>, base: real, layer: nat)
    returns (median: map<Id, real>)
    requires IsArranged(at, layerOf, columns, incoming, base) && 0 < layer < |columns| && columns[layer] != []
    ensures forall v :: v in columns[layer] <==> v in layerOf && layerOf[v] == layer
    ensures forall v :: v in columns[layer] ==> v in median && IsMedian(Lookup(incoming, v), CentresLeftOf(at, layerOf, layer), base, median[v])
    ensures forall i, j :: 0 <= i < j < |columns[layer]| ==>
      columns[layer][i] in median && columns[layer][j] in median && median[columns[layer][i]] <= median[columns[layer][j]]
    ensures StandsEvenly(columns[layer], at, layer)
    ensures |columns[layer]| as real * Middle(columns[layer], at) == Sum(ValuesOf(columns[layer], median))
    ensures |columns[layer]| == 1 ==> at[columns[layer][0]].cy == median[columns[layer][0]]
  {
    hide *;
    ColumnKnown(at, layerOf, columns, incoming, base, layer);
    var col, y, below := columns[layer], CentresOf(at, layerOf.Keys), CentresLeftOf(at, layerOf, layer);
    median := Medians(col, incoming, below, base);
    ColumnParts(col, layer, y, below, incoming, base);
    forall v | v in col ensures v in median && IsMedian(Lookup(incoming, v), below, base, median[v]) {
      MedianIs(Lookup(incoming, v), below, base);
    }
    var center := Total(col, median) / |col| as real;
    CentresKnown(col, at, layerOf.Keys);
    SpreadEvenly(col, at, y, layer, center);
    TotalIsSum(col, median);
    QuotientTimesCount(Total(col, median), |col|);
    if |col| == 1 { OneIsItsSum(col, at, median); }
  }

  lemma CentresKnown(col: seq<Id>, at: map<Id, Shape>, main: set<Id>)
    requires forall v :: v in col ==> v in at && v in main
    ensures forall v :: v in col ==> v in CentresOf(at, main) && CentresOf(at, main)[v] == at[v].cy
  {
  }

  lemma Centred(col: seq<Id>, at: map<Id, Shape>, y: map<Id, real>, center: real)
    requires col != [] && forall v :: v in col ==> v in at && v in y && y[v] == at[v].cy
    requires (y[col[0]] + y[col[|col| - 1]]) / 2.0 == center
    ensures Middle(col, at) == center
  {
    assert col[0] in col && col[|col| - 1] in col;
  }

  lemma QuotientTimesCount(total: real, n: nat)
    requires n > 0
    ensures n as real * (total / n as real) == total
  {
  }

  lemma OneIsItsSum(col: seq<Id>, at: map<Id, Shape>, f: map<Id, real>)
    requires |col| == 1 && forall v :: v in col ==> v in f && v in at
    requires 1.0 * Middle(col, at) == Sum(ValuesOf(col, f))
    ensures at[col[0]].cy == f[col[0]]
  {
    var xs := ValuesOf(col, f);
    assert xs[..0] == [];
    assert col[0] in col;
  }
}
