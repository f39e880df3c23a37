/**
 The picture a decision requirements diagram makes (scripts/dmn_add_di.py,
 `compute_layout`): sizes, rows, and the order and spread of each row.
 */
module DmnPicture {
  import opened Collections
  import opened Chains
  import opened DmnLayers
  import opened DmnLayout

  // ----- the order of ids

  /** `a` comes before `b` in a dictionary of code points: a proper prefix, or the smaller character where they first differ. */
  ghost predicate Before(a: string, b: string) {
    exists k :: DiffersAt(a, b, k)
  }

  ghost predicate DiffersAt(a: string, b: string, k: nat) {
    && k <= |a| && k < |b| && a[..k] == b[..k]
    && (k == |a| || a[k] < b[k])
  }

  lemma {:induction false} StringLeMeans(a: string, b: string)
    ensures StringLe(a, b) <==> a == b || Before(a, b)
  {
    if a == [] {
      if b != [] { assert DiffersAt(a, b, 0); }
    } else if b == [] || a[0] != b[0] {
      if b != [] && a[0] < b[0] { assert DiffersAt(a, b, 0); }
      if k: nat :| DiffersAt(a, b, k) { SameStart(a, b, k); }
    } else {
      StringLeMeans(a[1..], b[1..]);
      assert a == [a[0]] + a[1..] && b == [b[0]] + b[1..];
      BeforeTail(a, b);
    }
  }

  lemma SameStart(a: string, b: string, k: nat)
    requires DiffersAt(a, b, k)
    ensures k > 0 ==> a != [] && b != [] && a[0] == b[0]
  {
    if k > 0 { assert a[..k][0] == b[..k][0]; }
  }

  lemma BeforeTail(a: string, b: string)
    requires a != [] && b != [] && a[0] == b[0]
    ensures Before(a, b) <==> Before(a[1..], b[1..])
  {
    if k: nat :| DiffersAt(a, b, k) {
      assert a[1..][..k - 1] == a[..k][1..] && b[1..][..k - 1] == b[..k][1..];
      assert DiffersAt(a[1..], b[1..], k - 1);
    }
    if k: nat :| DiffersAt(a[1..], b[1..], k) {
      assert a[..k + 1] == [a[0]] + a[1..][..k] && b[..k + 1] == [b[0]] + b[1..][..k];
      assert DiffersAt(a, b, k + 1);
    }
  }

  /** The elements of the same layer whose ids come before. */
  ghost function Earlier(layers: map<Id, nat>, v: Id): set<Id>
    requires v in layers
  {
    set w | w in layers && layers[w] == layers[v] && Before(w.name, v.name)
  }

  ghost function Members(layers: map<Id, nat>, layer: nat): set<Id> {
    set v | v in layers && layers[v] == layer
  }

  lemma {:induction false} DistinctSize(s: seq<Id>)
    requires Distinct(s)
    ensures |set x | x in s| == |s|
  {
    if s == [] {
    } else {
      var rest, last := s[..|s| - 1], s[|s| - 1];
      assert s == rest + [last];
      DistinctSize(rest);
      assert (set x | x in s) == (set x | x in rest) + {last};
    }
  }

  /** The place of an id in its row is the number of ids before it. */
  lemma RankCounts(row: seq<Id>, layer: nat, layers: map<Id, nat>, i: nat)
    requires IsRow(row, layer, layers) && i < |row|
    ensures row[i] in layers && |Earlier(layers, row[i])| == i
  {
    hide StringLe, Before;
    var v := row[i];
    assert v in row;
    forall j | 0 <= j < |row| ensures Before(row[j].name, v.name) <==> j < i {
      StringLeMeans(row[j].name, v.name);
      StringLeMeans(v.name, row[j].name);
      StringLeTotal(row[j].name, v.name);
      if j < i { assert IdLe(row[j], v); }
      if j > i { assert IdLe(v, row[j]); }
      NotBeforeItself(v.name);
    }
    assert Earlier(layers, v) == set x | x in row[..i] by {
      forall w ensures w in Earlier(layers, v) <==> w in row[..i] {
        if w in Earlier(layers, v) {
          assert w in row;
          var j :| 0 <= j < |row| && row[j] == w;
          assert row[..i][j] == w;
        }
        if w in row[..i] {
          var j :| 0 <= j < i && row[j] == w;
          assert w in row;
        }
      }
    }
    DistinctSize(row[..i]);
  }

  lemma NotBeforeItself(a: string)
    ensures !Before(a, a)
  {
  }

  // ----- the picture

  /** Each kind of element has its size, and each layer its height over the one below: 140 px. */
  lemma PlacedSizes(positions: map<Id, Bounds>, rows: seq<seq<Id>>, elements: Elements, layers: map<Id, nat>, v: Id)
    requires IsPlaced(positions, rows, elements, layers) && v in layers
    ensures v in positions && v in elements.at && IsMaxLayer(|rows| - 1, layers)
    ensures positions[v].y == 100 + 140 * (|rows| - 1 - layers[v])
    ensures positions[v].width == (if elements.at[v].kind == DecisionService then 200 else 180)
    ensures positions[v].height == (if elements.at[v].kind == InputData then 45 else if elements.at[v].kind == DecisionService then 100 else 80)
  {
    var i := RankOf(v, rows, layers);
    var top := rows[|rows| - 1][0];
    assert top in rows[|rows| - 1];
  }

  /**
   A row starts somewhere and goes on in steps of 240 px, by id. It is in the middle of the
   diagram's width, which the number of layers gives, to half a pixel; a row that is wider
   than that starts at its left border.
   */
  lemma RowSpread(positions: map<Id, Bounds>, rows: seq<seq<Id>>, elements: Elements, layers: map<Id, nat>, layer: nat) returns (left: nat)
    requires IsPlaced(positions, rows, elements, layers) && layer < |rows| && rows[layer] != []
    ensures forall v :: v in layers && layers[v] == layer ==> v in positions && positions[v].x == left + 240 * |Earlier(layers, v)|
    ensures var count, width := |Members(layers, layer)|, 240 * (|rows| - 1);
      if 240 * count - 60 <= width then 0 <= width - (240 * count - 60) - 2 * (left - 100) <= 1 else left == 100
  {
    hide StringLe, Before;
    var row := rows[layer];
    left := positions[row[0]].x;
    assert IsRow(row, layer, layers);
    forall v | v in layers && layers[v] == layer ensures v in positions && positions[v].x == left + 240 * |Earlier(layers, v)| {
      var i := RankOf(v, rows, layers);
      RankCounts(row, layer, layers, i);
    }
    assert Members(layers, layer) == set x | x in row;
    DistinctSize(row);
  }
}
