/**
 Coordinates of a decision requirements diagram (scripts/dmn_add_di.py,
 `compute_layout`): one row per layer, layer 0 at the bottom, every row sorted by id.
 */
module DmnLayout {
  import opened Collections
  import opened Chains
  import opened DmnLayers

  datatype Bounds = Bounds(x: nat, y: nat, width: nat, height: nat)

  const DECISION_WIDTH: nat := 180
  const HORIZONTAL_SPACING: nat := 240
  const VERTICAL_SPACING: nat := 140
  const START_X: nat := 100
  const START_Y: nat := 100

  function Width(kind: ShapeKind): nat {
    if kind.DecisionService? then 200 else 180
  }

  function Height(kind: ShapeKind): nat {
    match kind
    case InputData => 45
    case DecisionService => 100
    case _ => 80
  }

  /** Strings in code-point order, as Python compares them. */
  predicate StringLe(a: string, b: string) {
    a == [] || (b != [] && (a[0] < b[0] || (a[0] == b[0] && StringLe(a[1..], b[1..]))))
  }

  predicate IdLe(a: Id, b: Id) {
    StringLe(a.name, b.name)
  }

  lemma {:induction false} StringLeTotal(a: string, b: string)
    ensures StringLe(a, b) || StringLe(b, a)
    ensures StringLe(a, b) && StringLe(b, a) ==> a == b
  {
    if a != [] && b != [] {
      StringLeTotal(a[1..], b[1..]);
      assert a == [a[0]] + a[1..] && b == [b[0]] + b[1..];
    }
  }

  lemma {:induction false} StringLeTransitive(a: string, b: string, c: string)
    requires StringLe(a, b) && StringLe(b, c)
    ensures StringLe(a, c)
  {
    if a != [] && a[0] == b[0] == c[0] {
      StringLeTransitive(a[1..], b[1..], c[1..]);
    }
  }

  lemma IdLeOrders()
    ensures Ordering(IdLe)
  {
    forall a, b ensures IdLe(a, b) || IdLe(b, a) { StringLeTotal(a.name, b.name); }
    forall a, b, c | IdLe(a, b) && IdLe(b, c) ensures IdLe(a, c) { StringLeTransitive(a.name, b.name, c.name); }
  }

  /** The highest layer in use. */
  ghost predicate IsMaxLayer(n: nat, layers: map<Id, nat>) {
    (exists v :: v in layers && layers[v] == n) && forall v :: v in layers ==> layers[v] <= n
  }

  method MaxLayer(order: seq<Id>, layers: map<Id, nat>) returns (n: nat)
    requires order != [] && IsOrderOf(order, layers.Keys)
    ensures IsMaxLayer(n, layers)
  {
    n := layers[order[0]];
    for i := 1 to |order|
      invariant exists v :: v in layers && layers[v] == n
      invariant forall j :: 0 <= j < i ==> layers[order[j]] <= n
    {
      if layers[order[i]] > n { n := layers[order[i]]; }
    }
    forall v | v in layers ensures layers[v] <= n {
      var j :| 0 <= j < |order| && order[j] == v;
    }
  }

  /** Floor division of Python, which the code takes the maximum with zero of. */
  function RowStart(maxLayer: nat, count: nat): nat
    requires count > 0
  {
    var totalWidth := count * DECISION_WIDTH + (count - 1) * (HORIZONTAL_SPACING - DECISION_WIDTH);
    var slack: int := (maxLayer * HORIZONTAL_SPACING - totalWidth) / 2;
    START_X + if slack < 0 then 0 else slack
  }

  function Place(maxLayer: nat, layer: nat, count: nat, position: nat, kind: ShapeKind): Bounds
    requires layer <= maxLayer && position < count
  {
    Bounds(RowStart(maxLayer, count) + position * HORIZONTAL_SPACING,
           START_Y + (maxLayer - layer) * VERTICAL_SPACING,
           Width(kind), Height(kind))
  }

  /** `row` is the layer's elements in id order. */
  ghost predicate IsRow(row: seq<Id>, layer: nat, layers: map<Id, nat>) {
    && IsOrderOf(row, set v | v in layers && layers[v] == layer)
    && SortedBy(row, IdLe)
  }

  /** Every element stands in its row, at the place its rank in the row gives it. */
  ghost predicate IsPlaced(positions: map<Id, Bounds>, rows: seq<seq<Id>>, elements: Elements, layers: map<Id, nat>) {
    && rows != [] && positions.Keys == layers.Keys <= elements.at.Keys
    && (forall n :: 0 <= n < |rows| ==> IsRow(rows[n], n, layers))
    && rows[|rows| - 1] != []
    && (forall v :: v in layers ==> layers[v] < |rows|)
    && forall n, i :: 0 <= n < |rows| && 0 <= i < |rows[n]| ==>
         rows[n][i] in layers && positions[rows[n][i]] == Place(|rows| - 1, n, |rows[n]|, i, elements.at[rows[n][i]].kind)
  }

  method GroupOf(layer: nat, order: seq<Id>, layers: map<Id, nat>) returns (group: seq<Id>)
    requires IsOrderOf(order, layers.Keys)
    ensures IsOrderOf(group, set v | v in layers && layers[v] == layer)
  {
    group := [];
    for i := 0 to |order|
      invariant Distinct(group) && forall v :: v in group <==> v in order[..i] && layers[v] == layer
    {
      assert order[..i + 1] == order[..i] + [order[i]];
      if layers[order[i]] == layer { group := group + [order[i]]; }
    }
    assert order[..|order|] == order;
  }

  lemma SortedRow(group: seq<Id>, layer: nat, layers: map<Id, nat>)
    requires IsOrderOf(group, set v | v in layers && layers[v] == layer)
    ensures IsRow(Sort(group, IdLe), layer, layers)
  {
    IdLeOrders();
    SortSorts(group, IdLe);
    SortKeeps(group, IdLe);
    SortDistinct(group, IdLe);
  }

  /** No row exists for an empty set of layers; otherwise rows are placed one by one, and `rows` records them. */
  method ComputeLayout(elements: Elements, layers: map<Id, nat>, order: seq<Id>)
    returns (positions: map<Id, Bounds>, ghost rows: seq<seq<Id>>)
    requires IsOrderOf(order, layers.Keys) && layers.Keys <= elements.at.Keys
    ensures layers.Keys == {} ==> positions == map[]
    ensures layers.Keys != {} ==> IsPlaced(positions, rows, elements, layers)
  {
    positions, rows := map[], [];
    if order == [] {
      return;
    }
    var maxLayer := MaxLayer(order, layers);
    for n := 0 to maxLayer + 1
      invariant |rows| == n
      invariant forall m :: 0 <= m < n ==> IsRow(rows[m], m, layers)
      invariant positions.Keys == set v | v in layers && layers[v] < n
      invariant forall m, i :: 0 <= m < n && 0 <= i < |rows[m]| ==>
        rows[m][i] in layers && layers[rows[m][i]] == m &&
        positions[rows[m][i]] == Place(maxLayer, m, |rows[m]|, i, elements.at[rows[m][i]].kind)
    {
      var group := GroupOf(n, order, layers);
      var row := Sort(group, IdLe);
      SortedRow(group, n, layers);
      ghost var was := positions;
      positions := PlaceRow(row, n, maxLayer, elements, positions);
      rows := rows + [row];
      forall m, i | 0 <= m < n + 1 && 0 <= i < |rows[m]|
        ensures rows[m][i] in layers && layers[rows[m][i]] == m
        ensures positions[rows[m][i]] == Place(maxLayer, m, |rows[m]|, i, elements.at[rows[m][i]].kind)
      {
        assert rows[m][i] in rows[m];
      }
    }
    ghost var top :| top in layers && layers[top] == maxLayer;
    assert top in rows[maxLayer];
  }

  method PlaceRow(row: seq<Id>, layer: nat, maxLayer: nat, elements: Elements, positions: map<Id, Bounds>)
    returns (positions': map<Id, Bounds>)
    requires layer <= maxLayer && Distinct(row) && forall v :: v in row ==> v in elements.at
    ensures positions'.Keys == positions.Keys + set v | v in row
    ensures forall v :: v in positions && v !in row ==> positions'[v] == positions[v]
    ensures forall i :: 0 <= i < |row| ==> positions'[row[i]] == Place(maxLayer, layer, |row|, i, elements.at[row[i]].kind)
  {
    positions' := positions;
    for i := 0 to |row|
      invariant positions'.Keys == positions.Keys + set v | v in row[..i]
      invariant forall v :: v in positions && v !in row[..i] ==> positions'[v] == positions[v]
      invariant forall j :: 0 <= j < i ==> positions'[row[j]] == Place(maxLayer, layer, |row|, j, elements.at[row[j]].kind)
    {
      assert row[..i + 1] == row[..i] + [row[i]];
      positions' := positions'[row[i] := Place(maxLayer, layer, |row|, i, elements.at[row[i]].kind)];
    }
    assert row[..|row|] == row;
  }

  lemma {:induction false} SortedUnique(s: seq<Id>, t: seq<Id>)
    requires Distinct(s) && Distinct(t) && SortedBy(s, IdLe) && SortedBy(t, IdLe)
    requires forall x :: x in s <==> x in t
    ensures s == t
  {
    hide StringLe, IdLe;
    assert forall i :: 0 <= i < |s| ==> s[i] in t;
    assert forall i :: 0 <= i < |t| ==> t[i] in s;
    if s != [] && t != [] {
      FirstsMatch(s, t);
      assert s == [s[0]] + s[1..] && t == [t[0]] + t[1..];
      forall x ensures x in s[1..] <==> x in t[1..] {
        assert x in s[1..] <==> x in s && x != s[0];
        assert x in t[1..] <==> x in t && x != t[0];
      }
      SortedUnique(s[1..], t[1..]);
    }
  }

  /** The same names in order start with the same one. */
  lemma FirstsMatch(s: seq<Id>, t: seq<Id>)
    requires SortedBy(s, IdLe) && SortedBy(t, IdLe) && s != [] && t != []
    requires forall x :: x in s <==> x in t
    ensures s[0] == t[0]
  {
    hide StringLe;
    assert s[0] in t && t[0] in s;
    var i :| 0 <= i < |t| && t[i] == s[0];
    var j :| 0 <= j < |s| && s[j] == t[0];
    StringLeTotal(s[0].name, s[0].name);
    assert IdLe(s[0], t[0]) && IdLe(t[0], s[0]);
    StringLeTotal(s[0].name, t[0].name);
  }

  /** The layers and the kinds fix every position; set order plays no part. */
  lemma PlacementUnique(positions: map<Id, Bounds>, rows: seq<seq<Id>>, elements: Elements,
                        positions': map<Id, Bounds>, rows': seq<seq<Id>>, elements': Elements, layers: map<Id, nat>)
    requires IsPlaced(positions, rows, elements, layers) && IsPlaced(positions', rows', elements', layers)
    requires forall v :: v in layers ==> elements.at[v].kind == elements'.at[v].kind
    ensures positions == positions'
  {
    var top, top' := rows[|rows| - 1][0], rows'[|rows'| - 1][0];
    assert top in rows[|rows| - 1] && top' in rows'[|rows'| - 1];
    assert |rows| == |rows'|;
    forall v | v in layers ensures positions[v] == positions'[v] {
      var i := RankOf(v, rows, layers);
      var j := RankOf(v, rows', layers);
      SameRow(rows[layers[v]], rows'[layers[v]], layers[v], layers);
    }
  }

  lemma SameRow(row: seq<Id>, row': seq<Id>, n: nat, layers: map<Id, nat>)
    requires IsRow(row, n, layers) && IsRow(row', n, layers)
    ensures row == row'
  {
    SortedUnique(row, row');
  }

  predicate Apart(a: Bounds, b: Bounds) {
    || a.x + a.width <= b.x || b.x + b.width <= a.x
    || a.y + a.height <= b.y || b.y + b.height <= a.y
  }

  lemma RankOf(v: Id, rows: seq<seq<Id>>, layers: map<Id, nat>) returns (i: nat)
    requires v in layers && layers[v] < |rows| && IsRow(rows[layers[v]], layers[v], layers)
    ensures i < |rows[layers[v]]| && rows[layers[v]][i] == v
  {
    assert v in rows[layers[v]];
    i :| 0 <= i < |rows[layers[v]]| && rows[layers[v]][i] == v;
  }

  /** No two shapes of a diagram overlap, on cyclic models too. */
  lemma ShapesApart(positions: map<Id, Bounds>, rows: seq<seq<Id>>, elements: Elements, layers: map<Id, nat>, u: Id, v: Id)
    requires IsPlaced(positions, rows, elements, layers) && u in positions && v in positions && u != v
    ensures Apart(positions[u], positions[v])
  {
    var i := RankOf(u, rows, layers);
    var j := RankOf(v, rows, layers);
    if layers[u] == layers[v] {
      assert i != j;
    }
  }

  /**
   An edge is drawn from the top of one shape to the bottom of another. It ends at least 40 px
   above its start when it starts in the lower layer, and below its start otherwise.
   */
  lemma RisesIffLower(positions: map<Id, Bounds>, rows: seq<seq<Id>>, elements: Elements, layers: map<Id, nat>, u: Id, v: Id)
    requires IsPlaced(positions, rows, elements, layers) && u in layers && v in layers
    ensures u in positions && v in positions
    ensures layers[u] < layers[v] ==> positions[v].y + positions[v].height + 40 <= positions[u].y
    ensures layers[u] >= layers[v] ==> positions[u].y < positions[v].y + positions[v].height
  {
    hide IsPlaced;
    PlacedRow(positions, rows, elements, layers, u);
    PlacedRow(positions, rows, elements, layers, v);
  }

  /** Along a dependency it rises exactly when the required element does not depend on a cycle. */
  lemma EdgesRise(positions: map<Id, Bounds>, rows: seq<seq<Id>>, elements: Elements, layers: map<Id, nat>, u: Id, v: Id)
    requires elements.Valid() && layers.Keys == elements.at.Keys
    requires IsPlaced(positions, rows, elements, layers)
    requires IsLayering(layers, DependencyGraph(elements), elements.at.Keys)
    requires (u, v) in DependencyGraph(elements)
    ensures u in positions && v in positions
    ensures positions[v].y + positions[v].height + 40 <= positions[u].y <==> !DependsOnCycle(DependencyGraph(elements), u)
  {
    var arcs := DependencyGraph(elements);
    GraphHasDependencies(elements);
    DepsAreArcs(arcs, elements);
    ArcRaisesLayer(arcs, layers, elements.at.Keys, u, v);
    hide IsLayering, DependsOnCycle, DependencyGraph, DependencyArcs, Within, DepsOf, IsPlaced;
    RisesIffLower(positions, rows, elements, layers, u, v);
  }

  /** The row alone decides the vertical place. */
  lemma PlacedRow(positions: map<Id, Bounds>, rows: seq<seq<Id>>, elements: Elements, layers: map<Id, nat>, u: Id)
    requires IsPlaced(positions, rows, elements, layers) && u in layers
    ensures u in positions && layers[u] < |rows|
    ensures positions[u].y == START_Y + (|rows| - 1 - layers[u]) * VERTICAL_SPACING
    ensures 0 < positions[u].height <= 100
  {
    var i := RankOf(u, rows, layers);
  }

  lemma ArcRaisesLayer(arcs: Arcs, layers: map<Id, nat>, ids: set<Id>, u: Id, v: Id)
    requires IsLayering(layers, arcs, ids) && Within(arcs, ids) && (u, v) in arcs
    ensures u in layers && v in layers
    ensures if DependsOnCycle(arcs, u) then layers[u] == layers[v] else layers[u] < layers[v]
  {
    if DependsOnCycle(arcs, u) {
      ArcKeepsCycle(arcs, u, v);
    }
    hide IsLongest, DependsOnCycle;
    var free := CycleFree(arcs, ids);
    if u in free && v in free {
      ArcLengthensChain(arcs, u, v, layers[u], layers[v]);
    }
  }
}
