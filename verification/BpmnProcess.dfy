/**
 The process object that lays itself out (scripts/bpmn_add_di.py, class
 `Process`): its fields are filled step by step, each step proved against the
 layout predicates of BpmnLayout and BpmnLanes.
 */
module BpmnProcess {
  import opened Collections
  import opened Chains
  import opened Xml
  import opened BpmnLayers
  import opened BpmnGeometry
  import opened BpmnLayout
  import opened BpmnLanes
  import opened BpmnExtract

  function Move(nodes: Dict<Id, Shape>, v: Id, cx: real, cy: real): Dict<Id, Shape>
    requires v in nodes.at
  {
    Dict(nodes.keys, nodes.at[v := nodes.at[v].(cx := cx, cy := cy)])
  }

  /** Same nodes, same kinds; the places may differ. */
  ghost predicate SameNodes(a: Dict<Id, Shape>, b: Dict<Id, Shape>) {
    a.keys == b.keys && a.at.Keys == b.at.Keys && forall v :: v in a.at ==> a.at[v].kind == b.at[v].kind
  }

  lemma MoveKeeps(nodes: Dict<Id, Shape>, was: Dict<Id, Shape>, v: Id, cx: real, cy: real)
    requires SameNodes(nodes, was) && v in nodes.at
    ensures SameNodes(Move(nodes, v, cx, cy), was)
  {
  }

  /** The first nodes of the column stand where `y` says; no other node has moved. */
  ghost predicate MovedSoFar(nodes: Dict<Id, Shape>, was: Dict<Id, Shape>, col: seq<Id>, position: nat, y: map<Id, real>, centerX: real) {
    && position <= |col| && nodes.at.Keys == was.at.Keys && (forall v :: v in col ==> v in was.at)
    && (forall i :: 0 <= i < position ==> col[i] in y && nodes.at[col[i]] == was.at[col[i]].(cx := centerX, cy := y[col[i]]))
    && forall v :: v in was.at && v !in col[..position] ==> nodes.at[v] == was.at[v]
  }

  lemma MoveOneMore(nodes: Dict<Id, Shape>, was: Dict<Id, Shape>, col: seq<Id>, position: nat, y: map<Id, real>, y': map<Id, real>, centerX: real)
    requires Distinct(col) && position < |col| && MovedSoFar(nodes, was, col, position, y, centerX)
    requires col[position] in nodes.at && col[position] in y' && y' == y[col[position] := y'[col[position]]]
    ensures MovedSoFar(Move(nodes, col[position], centerX, y'[col[position]]), was, col, position + 1, y', centerX)
  {
    assert col[..position + 1] == col[..position] + [col[position]];
  }

  /** `y'` is `y` and the slots of the first members. */
  ghost predicate SlotsSoFar(y: map<Id, real>, y': map<Id, real>, col: seq<Id>, position: nat, center: real) {
    && position <= |col| && y'.Keys == y.Keys + (set v | v in col[..position]) && (forall v :: v in y ==> y'[v] == y[v])
    && forall i :: 0 <= i < position ==> col[i] in y' && y'[col[i]] == Slot(|col|, center, i)
  }

  lemma NoSlots(nodes: Dict<Id, Shape>, y: map<Id, real>, col: seq<Id>, center: real, centerX: real)
    requires forall v :: v in col ==> v in nodes.at
    ensures SlotsSoFar(y, y, col, 0, center) && MovedSoFar(nodes, nodes, col, 0, y, centerX)
  {
  }

  lemma SlotMore(y: map<Id, real>, y': map<Id, real>, col: seq<Id>, position: nat, center: real)
    requires SlotsSoFar(y, y', col, position, center) && position < |col| && Distinct(col) && forall v :: v in col ==> v !in y
    ensures SlotsSoFar(y, y'[col[position] := Slot(|col|, center, position)], col, position + 1, center)
  {
    hide Slot;
    assert col[..position + 1] == col[..position] + [col[position]];
    assert col[position] in col;
  }

  lemma AllSlots(nodes: Dict<Id, Shape>, was: Dict<Id, Shape>, y: map<Id, real>, y': map<Id, real>, col: seq<Id>, center: real, centerX: real)
    requires SlotsSoFar(y, y', col, |col|, center) && MovedSoFar(nodes, was, col, |col|, y', centerX)
    ensures Evenly(col, y', center)
    ensures y'.Keys == y.Keys + (set v | v in col) && forall v :: v in y ==> y'[v] == y[v]
    ensures forall v :: v in nodes.at && v !in col ==> v in was.at && nodes.at[v] == was.at[v]
    ensures forall v :: v in col ==> v in was.at && v in y' && v in nodes.at && nodes.at[v] == was.at[v].(cx := centerX, cy := y'[v])
  {
    hide Slot;
    assert col[..|col|] == col;
  }

  lemma SoundKept(nodes: Dict<Id, Shape>, was: Dict<Id, Shape>, hosts: Dict<Id, Id>, refs: seq<DataRef>)
    requires Sound(was, hosts, refs) && SameNodes(nodes, was)
    ensures Sound(nodes, hosts, refs)
  {
  }

  lemma SoundMeans(nodes: Dict<Id, Shape>, hosts: Dict<Id, Id>, refs: seq<DataRef>)
    requires Sound(nodes, hosts, refs)
    ensures nodes.Valid() && forall e :: e in hosts.keys <==> e in hosts.at
  {
  }

  lemma NothingListed()
    ensures Distinct<Id>([]) && forall h: Id :: Lookup<Id, Id>(map[], h) == []
  {
  }

  lemma DistinctLast(s: seq<Id>, x: Id)
    requires Distinct(s) && x !in s
    ensures Distinct(s + [x])
  {
  }

  lemma LookupSet(m: map<Id, seq<Id>>, k: Id, v: seq<Id>)
    ensures forall h :: Lookup(m[k := v], h) == if h == k then v else Lookup(m, h)
  {
    forall h ensures Lookup(m[k := v], h) == if h == k then v else Lookup(m, h) {
      assert h in m[k := v] <==> h == k || h in m;
    }
  }

  lemma SameAsItself(nodes: Dict<Id, Shape>)
    ensures SameNodes(nodes, nodes)
  {
  }

  lemma SameNodesTransitive(a: Dict<Id, Shape>, b: Dict<Id, Shape>, c: Dict<Id, Shape>)
    requires SameNodes(a, b) && SameNodes(b, c)
    ensures SameNodes(a, c)
  {
  }

  function ShapeExtent(s: Shape): Extent {
    Extent(s.cx - s.HalfWidth(), s.cy - s.HalfHeight(), s.cx + s.HalfWidth(), s.cy + s.HalfHeight())
  }

  function RefExtent(r: DataRef): Extent {
    Extent(r.x as real, r.y as real, (r.x + r.w) as real, (r.y + r.h) as real)
  }

  function NodeExtents(keys: seq<Id>, at: map<Id, Shape>): seq<Extent>
    requires forall k :: k in keys ==> k in at
  {
    seq(|keys|, i requires 0 <= i < |keys| => assert keys[i] in keys; ShapeExtent(at[keys[i]]))
  }

  function RefExtents(refs: seq<DataRef>): seq<Extent> {
    seq(|refs|, i requires 0 <= i < |refs| => RefExtent(refs[i]))
  }

  ghost predicate Within4(b: Extent, e: Extent) {
    e.left <= b.left && e.top <= b.top && b.right <= e.right && b.bottom <= e.bottom
  }

  /** The least extent around all boxes. */
  ghost predicate IsHull(e: Extent, boxes: seq<Extent>) {
    && (forall b :: b in boxes ==> Within4(b, e))
    && (exists b :: b in boxes && b.left == e.left)
    && (exists b :: b in boxes && b.top == e.top)
    && (exists b :: b in boxes && b.right == e.right)
    && (exists b :: b in boxes && b.bottom == e.bottom)
  }

  method Hull(boxes: seq<Extent>) returns (e: Extent)
    requires boxes != []
    ensures IsHull(e, boxes)
  {
    e := boxes[0];
    assert boxes[0] in boxes[..1];
    for i := 1 to |boxes|
      invariant IsHull(e, boxes[..i])
    {
      assert boxes[..i + 1] == boxes[..i] + [boxes[i]];
      var b, was := boxes[i], e;
      assert forall x :: x in boxes[..i] ==> x in boxes[..i + 1];
      e := Extent(if b.left < e.left then b.left else e.left,
                  if b.top < e.top then b.top else e.top,
                  if b.right > e.right then b.right else e.right,
                  if b.bottom > e.bottom then b.bottom else e.bottom);
    }
    assert boxes[..|boxes|] == boxes;
  }

  /** What a layout leaves behind for its proofs. */
  datatype Trace = Trace(layerOf: map<Id, nat>, visited: set<Id>, visits: seq<Id>, columns: seq<seq<Id>>, incoming: map<Id, seq<Id>>, bottom: real, outline: Extent)

  lemma ColumnKept(col: seq<Id>, m: nat, y: map<Id, real>, y': map<Id, real>, layerOf: map<Id, nat>, incoming: map<Id, seq<Id>>, base: real)
    requires IsColumn(col, m, y, Below(y, layerOf, m), incoming, base)
    requires y.Keys <= y'.Keys && forall v :: v in y ==> y'[v] == y[v]
    requires forall v :: v in y' && v !in y ==> v in layerOf && layerOf[v] >= m
    requires forall v :: v in col ==> v in y
    ensures IsColumn(col, m, y', Below(y', layerOf, m), incoming, base)
  {
    assert Below(y', layerOf, m) == Below(y, layerOf, m);
    hide MedianY, Total, KeyLe;
    forall c | Evenly(col, y, c) ensures Evenly(col, y', c) {
      forall i | 0 <= i < |col| ensures col[i] in y' { assert col[i] in col; }
    }
  }

  /** The first columns are done: `y` holds the centres of the layers below `|columns|`. */
  ghost predicate ColumnsDone(columns: seq<seq<Id>>, y: map<Id, real>, layerOf: map<Id, nat>, incoming: map<Id, seq<Id>>, base: real) {
    && y.Keys == (set v | v in layerOf && layerOf[v] < |columns|)
    && (forall m :: 0 <= m < |columns| ==> IsOrderOf(columns[m], set v | v in layerOf && layerOf[v] == m))
    && forall m :: 0 <= m < |columns| ==> IsColumn(columns[m], m, y, Below(y, layerOf, m), incoming, base)
  }

  lemma ColumnsGrow(columns: seq<seq<Id>>, y: map<Id, real>, col: seq<Id>, y': map<Id, real>, layerOf: map<Id, nat>, incoming: map<Id, seq<Id>>, base: real)
    requires ColumnsDone(columns, y, layerOf, incoming, base)
    requires IsOrderOf(col, set v | v in layerOf && layerOf[v] == |columns|)
    requires IsColumn(col, |columns|, y', y, incoming, base)
    requires y'.Keys == y.Keys + (set v | v in col) && forall v :: v in y ==> y'[v] == y[v]
    ensures ColumnsDone(columns + [col], y', layerOf, incoming, base)
  {
    hide IsColumn;
    ColumnsKept(columns, y, y', layerOf, incoming, base);
    assert Below(y', layerOf, |columns|) == y;
  }

  /** The nodes of `y` stand at their layer and centre, all others where they were. */
  ghost predicate DrawnUpTo(at: map<Id, Shape>, was: map<Id, Shape>, y: map<Id, real>, layerOf: map<Id, nat>) {
    && y.Keys <= layerOf.Keys <= at.Keys == was.Keys
    && (forall v :: v in at && v !in y ==> at[v] == was[v])
    && forall v :: v in y ==> at[v].cx == BASE_X + layerOf[v] as real * X_SPACING && at[v].cy == y[v]
  }

  lemma DrawnMore(at: map<Id, Shape>, at': map<Id, Shape>, was: map<Id, Shape>, y: map<Id, real>, y': map<Id, real>, layerOf: map<Id, nat>, layer: nat, col: seq<Id>)
    requires DrawnUpTo(at, was, y, layerOf) && at'.Keys == at.Keys
    requires forall v :: v in col ==> v in layerOf && layerOf[v] == layer
    requires y'.Keys == y.Keys + (set v | v in col) && forall v :: v in y ==> y'[v] == y[v]
    requires forall v :: v in at && v !in col ==> at'[v] == at[v]
    requires forall v :: v in col ==> at'[v] == at[v].(cx := BASE_X + layer as real * X_SPACING, cy := y'[v])
    requires forall v :: v in col ==> v !in y
    ensures DrawnUpTo(at', was, y', layerOf)
  {
  }

  lemma ArrangedFrom(at: map<Id, Shape>, was: map<Id, Shape>, y: map<Id, real>, layerOf: map<Id, nat>, columns: seq<seq<Id>>, incoming: map<Id, seq<Id>>, base: real)
    requires DrawnUpTo(at, was, y, layerOf) && ColumnsDone(columns, y, layerOf, incoming, base)
    requires forall v :: v in layerOf ==> layerOf[v] < |columns|
    ensures IsArranged(at, layerOf, columns, incoming, base)
  {
    hide IsColumn;
    assert y == CentresOf(at, layerOf.Keys);
  }

  lemma NothingYet(nodes: Dict<Id, Shape>, layerOf: map<Id, nat>, incoming: map<Id, seq<Id>>, base: real)
    requires layerOf.Keys <= nodes.at.Keys
    ensures SameNodes(nodes, nodes) && DrawnUpTo(nodes.at, nodes.at, map[], layerOf) && ColumnsDone([], map[], layerOf, incoming, base)
  {
    var y: map<Id, real> := map[];
    assert y.Keys == (set v | v in layerOf && layerOf[v] < 0);
  }

  lemma DoneKeys(columns: seq<seq<Id>>, y: map<Id, real>, layerOf: map<Id, nat>, incoming: map<Id, seq<Id>>, base: real)
    requires ColumnsDone(columns, y, layerOf, incoming, base)
    ensures y.Keys == (set v | v in layerOf && layerOf[v] < |columns|)
  {
  }

  lemma SameKeys(a: Dict<Id, Shape>, b: Dict<Id, Shape>)
    requires SameNodes(a, b)
    ensures a.at.Keys == b.at.Keys && a.keys == b.keys
  {
  }

  lemma DrawnRest(at: map<Id, Shape>, was: map<Id, Shape>, y: map<Id, real>, layerOf: map<Id, nat>)
    requires DrawnUpTo(at, was, y, layerOf)
    ensures at.Keys == was.Keys && forall v :: v in at && v !in layerOf ==> at[v] == was[v]
  {
  }

  lemma ColumnsKept(columns: seq<seq<Id>>, y: map<Id, real>, y': map<Id, real>, layerOf: map<Id, nat>, incoming: map<Id, seq<Id>>, base: real)
    requires y.Keys == set v | v in layerOf && layerOf[v] < |columns|
    requires y.Keys <= y'.Keys <= layerOf.Keys && forall v :: v in y ==> y'[v] == y[v]
    requires forall m :: 0 <= m < |columns| ==> IsOrderOf(columns[m], set v | v in layerOf && layerOf[v] == m)
    requires forall m :: 0 <= m < |columns| ==> IsColumn(columns[m], m, y, Below(y, layerOf, m), incoming, base)
    ensures forall m :: 0 <= m < |columns| ==> IsColumn(columns[m], m, y', Below(y', layerOf, m), incoming, base)
  {
    hide IsColumn;
    forall m | 0 <= m < |columns| ensures IsColumn(columns[m], m, y', Below(y', layerOf, m), incoming, base) {
      ColumnKept(columns[m], m, y, y', layerOf, incoming, base);
    }
  }

  method MaxLayerOf(order: seq<Id>, layerOf: map<Id, nat>) returns (n: nat)
    requires forall v :: v in order <==> v in layerOf
    ensures forall v :: v in layerOf ==> layerOf[v] <= n
  {
    n := MaxOf(order, layerOf);
  }

  ghost function MainOf(c: Content): set<Id> {
    c.nodes.at.Keys - c.hosts.at.Keys
  }

  /** The start events, attached or not. */
  ghost function StartsOf(nodes: Dict<Id, Shape>): set<Id> {
    set v | v in nodes.at && nodes.at[v].kind == TagStartEvent
  }

  lemma StartsKept(a: Dict<Id, Shape>, b: Dict<Id, Shape>)
    requires SameNodes(a, b)
    ensures StartsOf(a) == StartsOf(b)
  {
  }

  lemma StartsAmong(visits: seq<Id>, before: map<Id, seq<Id>>, starts: set<Id>, nodes: Dict<Id, Shape>)
    requires StartsRight(visits, before, starts)
    requires forall v :: v in starts <==> v in before && v in StartsOf(nodes)
    ensures StartsRight(visits, before, StartsOf(nodes))
  {
    assert FirstOf(before, starts) == FirstOf(before, StartsOf(nodes));
  }

  ghost function ContentOf(c: Content): seq<Extent>
    requires c.nodes.Valid()
  {
    NodeExtents(c.nodes.keys, c.nodes.at) + RefExtents(c.dataRefs)
  }

  /** A finished layout: nodes, data references and lanes in place. */
  ghost predicate IsFinished(c: Content, t: Trace, baseY: real) {
    && Sound(c.nodes, c.hosts, c.dataRefs) && c.nodes.keys != []
    && IsLaidOut(c.nodes, c.hosts, t.layerOf, t.columns, t.incoming, baseY)
    && IsFlowLayering(t.layerOf, t.visited, LiftedArcs(c.flows, c.hosts.at, MainOf(c)), MainOf(c))
    && IsVisitOrder(t.visits, t.visited, HasSource(Before(LiftedArcs(c.flows, c.hosts.at, MainOf(c)), MainOf(c))))
    && StartsRight(t.visits, Before(LiftedArcs(c.flows, c.hosts.at, MainOf(c)), MainOf(c)), StartsOf(c.nodes))
    && (forall v :: Lookup(t.incoming, v) == Incoming(LiftedArcs(c.flows, c.hosts.at, MainOf(c)), v))
    && IsBottom(t.bottom, c.nodes.at) && IsDataRow(c.dataRefs, t.bottom)
    && IsHull(t.outline, ContentOf(c))
    && forall i :: 0 <= i < |c.lanes| ==> c.lanes[i].box == LaneAt(t.outline, |c.lanes|, i)
  }

  class Process {
    var nodes: Dict<Id, Shape>
    var flows: seq<Flow>
    var dataRefs: seq<DataRef>
    var lanes: seq<Lane>
    var hosts: Dict<Id, Id>

    constructor ()
      ensures Holds() == EMPTY
    {
      nodes, flows, dataRefs, lanes, hosts := Dict([], map[]), [], [], [], Dict([], map[]);
    }

    ghost function Holds(): Content
      reads this
    {
      Content(nodes, flows, dataRefs, lanes, hosts)
    }

    /** Reads one child after the other: the last flow node with an id is kept, an attachment once read is never taken back. */
    method Extract(element: Node)
      modifies this
      ensures Holds() == WithChildren(old(Holds()), Children(element))
    {
      hide WithChild, WithChildren, Children;
      var kids := Children(element);
      ChildrenNext(Holds(), kids, 0);
      for i := 0 to |kids|
        invariant Holds() == WithChildren(old(Holds()), kids[..i])
      {
        ChildrenNext(old(Holds()), kids, i);
        ExtractChild(kids[i]);
      }
      assert kids[..|kids|] == kids;
    }

    method ExtractChild(kid: Node)
      modifies this
      ensures Holds() == WithChild(old(Holds()), kid)
    {
      WithChildMeans(Holds(), kid);
      hide NodeId, HostId, FlowOf, DataRefOf, LanesOf, AttrOrEmpty, Dict.Set, WithChild;
      if NodeId(kid).Some? {
        nodes := nodes.Set(NodeId(kid).value, Shape(kid.tag, 0.0, 0.0));
        if HostId(kid).Some? {
          hosts := hosts.Set(NodeId(kid).value, HostId(kid).value);
        }
      } else {
        flows, dataRefs := flows + FlowOf(kid), dataRefs + DataRefOf(kid);
        if HasTag(kid, TagLaneSet) {
          var more := ReadLanes(kid.kids);
          lanes := lanes + more;
        }
      }
    }

    /** What reading establishes. */
    ghost predicate Valid()
      reads this
    {
      Sound(nodes, hosts, dataRefs)
    }

    ghost function Main(): set<Id>
      reads this
    {
      MainOf(Holds())
    }

    /** The members of a column take their places one after the other. */
    method Spread(layer: nat, col: seq<Id>, y: map<Id, real>, center: real) returns (y': map<Id, real>)
      requires Distinct(col) && forall v :: v in col ==> v in nodes.at && v !in y
      modifies this`nodes
      ensures nodes.at.Keys == old(nodes.at.Keys)
      ensures y'.Keys == y.Keys + set v | v in col
      ensures forall v :: v in y ==> y'[v] == y[v]
      ensures Evenly(col, y', center)
      ensures SameNodes(nodes, old(nodes))
      ensures forall v :: v in nodes.at && v !in col ==> nodes.at[v] == old(nodes.at[v])
      ensures forall v :: v in col ==> nodes.at[v] == old(nodes.at[v]).(cx := BASE_X + layer as real * X_SPACING, cy := y'[v])
    {
      hide *;
      SameAsItself(nodes);
      var centerX := BASE_X + layer as real * X_SPACING;
      y' := y;
      NoSlots(nodes, y, col, center, centerX);
      for position := 0 to |col|
        invariant SameNodes(nodes, old(nodes)) && nodes.at.Keys == old(nodes.at.Keys)
        invariant SlotsSoFar(y, y', col, position, center)
        invariant MovedSoFar(nodes, old(nodes), col, position, y', centerX)
      {
        var v, centerY := col[position], Slot(|col|, center, position);
        assert v in col;
        SlotMore(y, y', col, position, center);
        MoveKeeps(nodes, old(nodes), v, centerX, centerY);
        MoveOneMore(nodes, old(nodes), col, position, y', y'[v := centerY], centerX);
        y' := y'[v := centerY];
        nodes := Move(nodes, v, centerX, centerY);
        SameKeys(nodes, old(nodes));
      }
      AllSlots(nodes, old(nodes), y, y', col, center, centerX);
    }

    method PlaceColumn(layer: nat, group: seq<Id>, incoming: map<Id, seq<Id>>, y: map<Id, real>, baseY: real)
      returns (col: seq<Id>, y': map<Id, real>)
      requires Distinct(group) && forall v :: v in group ==> v in nodes.at && v !in y
      modifies this`nodes
      ensures Distinct(col) && forall v :: v in col <==> v in group
      ensures y'.Keys == y.Keys + set v | v in col
      ensures forall v :: v in y ==> y'[v] == y[v]
      ensures IsColumn(col, layer, y', y, incoming, baseY)
      ensures InOrder(col, layer, group, Medians(group, incoming, y, baseY))
      ensures SameNodes(nodes, old(nodes)) && nodes.at.Keys == old(nodes.at.Keys)
      ensures forall v :: v in nodes.at && v !in col ==> nodes.at[v] == old(nodes.at[v])
      ensures forall v :: v in col ==> nodes.at[v] == old(nodes.at[v]).(cx := BASE_X + layer as real * X_SPACING, cy := y'[v])
    {
      hide MedianY, Total, KeyLe, Evenly, SameNodes, Precedes;
      var center := baseY;
      col := group;
      if layer > 0 {
        var medians := map v | v in group :: MedianY(Lookup(incoming, v), y, baseY);
        col := SortByKey(group, medians);
        assert medians == Medians(col, incoming, y, baseY) == Medians(group, incoming, y, baseY);
        if col != [] {
          center := Total(col, medians) / |col| as real;
        }
      }
      y' := Spread(layer, col, y, center);
    }

    /** The first layer keeps the order it is iterated in; in any other, members with the same median do. */
    static ghost predicate InOrder(col: seq<Id>, layer: nat, group: seq<Id>, medians: map<Id, real>) {
      if layer == 0 then col == group
      else forall i, j :: 0 <= i < j < |col| && KeyLe(col[j], col[i], medians) ==> Precedes(group, col[i], col[j])
    }

    static method SortByKey(group: seq<Id>, key: map<Id, real>) returns (col: seq<Id>)
      requires Distinct(group)
      ensures Distinct(col) && forall v :: v in col <==> v in group
      ensures forall i, j :: 0 <= i < j < |col| ==> KeyLe(col[i], col[j], key)
      ensures forall i, j :: 0 <= i < j < |col| && KeyLe(col[j], col[i], key) ==> Precedes(group, col[i], col[j])
    {
      hide Precedes;
      var le := (a: Id, b: Id) => KeyLe(a, b, key);
      assert Ordering(le);
      col := Sort(group, le);
      SortSorts(group, le);
      SortKeeps(group, le);
      SortDistinct(group, le);
      SortStable(group, le);
      forall i, j | 0 <= i < j < |col| ensures KeyLe(col[i], col[j], key) {
        assert le(col[i], col[j]);
      }
      forall i, j | 0 <= i < j < |col| && KeyLe(col[j], col[i], key) ensures Precedes(group, col[i], col[j]) {
        assert le(col[j], col[i]);
      }
    }

    method AssignCoordinates(order: seq<Id>, layerOf: map<Id, nat>, incoming: map<Id, seq<Id>>, baseY: real)
      returns (ghost columns: seq<seq<Id>>)
      requires IsOrderOf(order, layerOf.Keys) && layerOf.Keys <= nodes.at.Keys
      modifies this`nodes
      ensures SameNodes(nodes, old(nodes))
      ensures forall v :: v in nodes.at && v !in layerOf ==> nodes.at[v] == old(nodes.at[v])
      ensures IsArranged(nodes.at, layerOf, columns, incoming, baseY)
    {
      hide ColumnsDone, DrawnUpTo, SameNodes, IsColumn;
      var maxLayer := MaxLayerOf(order, layerOf);
      var y: map<Id, real> := map[];
      columns := [];
      ghost var was := nodes;
      NothingYet(nodes, layerOf, incoming, baseY);
      for n := 0 to maxLayer + 1
        invariant |columns| == n
        invariant SameNodes(nodes, was) && layerOf.Keys <= nodes.at.Keys
        invariant DrawnUpTo(nodes.at, was.at, y, layerOf) && ColumnsDone(columns, y, layerOf, incoming, baseY)
      {
        var group := MembersOf(n, order, layerOf);
        DoneKeys(columns, y, layerOf, incoming, baseY);
        ghost var y0, nodes0 := y, nodes;
        var col;
        col, y := PlaceColumn(n, group, incoming, y, baseY);
        SameNodesTransitive(nodes, nodes0, was);
        SameKeys(nodes, nodes0);
        DrawnMore(nodes0.at, nodes.at, was.at, y0, y, layerOf, n, col);
        ColumnsGrow(columns, y0, col, y, layerOf, incoming, baseY);
        columns := columns + [col];
      }
      ArrangedFrom(nodes.at, was.at, y, layerOf, columns, incoming, baseY);
      DrawnRest(nodes.at, was.at, y, layerOf);
    }

    static method MembersOf(layer: nat, order: seq<Id>, layerOf: map<Id, nat>) returns (group: seq<Id>)
      requires IsOrderOf(order, layerOf.Keys)
      ensures IsOrderOf(group, set v | v in layerOf && layerOf[v] == layer)
    {
      group := [];
      for i := 0 to |order|
        invariant Distinct(group) && forall v :: v in group <==> v in order[..i] && layerOf[v] == layer
      {
        assert order[..i + 1] == order[..i] + [order[i]];
        if layerOf[order[i]] == layer { group := group + [order[i]]; }
      }
      assert order[..|order|] == order;
    }

    method GroupByHost() returns (hostOrder: seq<Id>, groups: map<Id, seq<Id>>)
      requires Sound(nodes, hosts, dataRefs)
      ensures Distinct(hostOrder)
      ensures HostsListed(hostOrder, hosts.keys, hosts.at)
      ensures Grouped(groups, hosts.keys, hosts.at, nodes.at.Keys)
    {
      hide *;
      SoundMeans(nodes, hosts, dataRefs);
      hostOrder, groups := [], map[];
      SiblingsLast([], hosts.at);
      NothingListed();
      for i := 0 to |hosts.keys|
        invariant Distinct(hostOrder)
        invariant forall h :: Siblings(hosts.keys[..i], hosts.at, h) != [] ==> h in hostOrder
        invariant forall h :: Lookup(groups, h) == Siblings(hosts.keys[..i], hosts.at, h)
      {
        var event := hosts.keys[i];
        SiblingsLast(hosts.keys[..i + 1], hosts.at);
        assert hosts.keys[..i + 1][..i] == hosts.keys[..i];
        var host := hosts.at[event];
        if host !in hostOrder {
          DistinctLast(hostOrder, host);
          hostOrder := hostOrder + [host];
        }
        LookupSet(groups, host, Lookup(groups, host) + [event]);
        groups := groups[host := Lookup(groups, host) + [event]];
      }
      assert hosts.keys[..|hosts.keys|] == hosts.keys;
      EventsKnown(groups);
      assert HostsListed(hostOrder, hosts.keys, hosts.at) by { AreListed(hostOrder, hosts.keys, hosts.at); }
    }

    static lemma AreListed(hostOrder: seq<Id>, events: seq<Id>, host: map<Id, Id>)
      requires forall h :: Siblings(events, host, h) != [] ==> h in hostOrder
      ensures HostsListed(hostOrder, events, host)
    {
      hide Siblings;
    }

    static ghost predicate HostsListed(hostOrder: seq<Id>, events: seq<Id>, host: map<Id, Id>) {
      forall h :: Siblings(events, host, h) != [] ==> h in hostOrder
    }

    method HangGroup(host: Id, group: seq<Id>)
      requires host in nodes.at && Distinct(group) && forall e :: e in group ==> e in nodes.at
      modifies this`nodes
      ensures SameNodes(nodes, old(nodes))
      ensures forall v :: v in nodes.at && v !in group ==> nodes.at[v] == old(nodes.at[v])
      ensures host !in group ==> forall i :: 0 <= i < |group| ==>
        nodes.at[group[i]] == HungAt(nodes.at[group[i]], nodes.at[host], |group|, i)
    {
      hide ShareOf, Width, Height;
      for position := 0 to |group|
        invariant SameNodes(nodes, old(nodes))
        invariant forall v :: v in nodes.at && v !in group ==> nodes.at[v] == old(nodes.at[v])
        invariant host !in group ==> forall i :: 0 <= i < position ==>
          nodes.at[group[i]] == HungAt(nodes.at[group[i]], nodes.at[host], |group|, i)
      {
        var event, h := group[position], nodes.at[host];
        assert event in group;
        nodes := Move(nodes, event,
          h.cx - h.HalfWidth() + ShareOf(Width(h.kind), |group|, position),
          h.cy + h.HalfHeight());
      }
    }

    method HangBoundaryEvents()
      requires Sound(nodes, hosts, dataRefs)
      modifies this`nodes
      ensures SameNodes(nodes, old(nodes)) && Untouched(nodes.at, old(nodes.at), hosts.at)
      ensures AllHung(nodes.at, hosts.keys, hosts.at)
    {
      hide *;
      SameAsItself(nodes);
      NoneTouched(nodes.at, hosts.at);
      var hostOrder, groups := GroupByHost();
      ghost var was := nodes;
      for k := 0 to |hostOrder|
        invariant SameNodes(nodes, was) && Untouched(nodes.at, was.at, hosts.at) && nodes.at.Keys == was.at.Keys
        invariant forall j :: 0 <= j < k ==> HungUnder(nodes.at, hosts.keys, hosts.at, hostOrder[j])
      {
        ghost var nodes0 := nodes;
        HangHost(hostOrder[k], groups);
        SameNodesTransitive(nodes, nodes0, was);
        SameKeys(nodes, nodes0);
        TouchedOnce(nodes.at, nodes0.at, was.at, hosts.at);
      }
      AllHungFrom(nodes.at, hosts.keys, hosts.at, hostOrder);
    }

    /** `groups` lists every host's events, all of them nodes. */
    static ghost predicate Grouped(groups: map<Id, seq<Id>>, events: seq<Id>, host: map<Id, Id>, ids: set<Id>) {
      forall h :: Lookup(groups, h) == Siblings(events, host, h) && Distinct(Lookup(groups, h)) && forall e :: e in Lookup(groups, h) ==> e in ids
    }

    lemma EventsKnown(groups: map<Id, seq<Id>>)
      requires Sound(nodes, hosts, dataRefs) && forall h :: Lookup(groups, h) == Siblings(hosts.keys, hosts.at, h)
      ensures Grouped(groups, hosts.keys, hosts.at, nodes.at.Keys)
    {
      forall h ensures Distinct(Siblings(hosts.keys, hosts.at, h)) && forall e :: e in Siblings(hosts.keys, hosts.at, h) ==> e in nodes.at {
        SiblingsMembers(hosts.keys, hosts.at, h);
      }
    }

    /** All events of one host; nothing if the host is not in the process. */
    method HangHost(h: Id, groups: map<Id, seq<Id>>)
      requires Grouped(groups, hosts.keys, hosts.at, nodes.at.Keys)
      modifies this`nodes
      ensures SameNodes(nodes, old(nodes)) && Untouched(nodes.at, old(nodes.at), hosts.at)
      ensures HungUnder(nodes.at, hosts.keys, hosts.at, h)
      ensures forall g :: g != h && HungUnder(old(nodes.at), hosts.keys, hosts.at, g) ==> HungUnder(nodes.at, hosts.keys, hosts.at, g)
    {
      var group := Lookup(groups, h);
      ghost var events, host := hosts.keys, hosts.at;
      assert group == Siblings(events, host, h) && Distinct(group) && forall e :: e in group ==> e in nodes.at;
      SameAsItself(nodes);
      SiblingsMembers(events, host, h);
      hide Siblings, HungAt, SameNodes, HungUnder, Grouped;
      ghost var was := nodes;
      if h in nodes.at {
        HangGroup(h, group);
        SameKeys(nodes, was);
        forall g | g != h && HungUnder(was.at, events, host, g) ensures HungUnder(nodes.at, events, host, g) {
          StillHung(was.at, nodes.at, events, host, g, h);
        }
      }
      JustHung(nodes.at, events, host, h, group);
    }

    /** Only events whose host is in the process have moved. */
    static ghost predicate Untouched(at: map<Id, Shape>, was: map<Id, Shape>, host: map<Id, Id>) {
      at.Keys == was.Keys && forall v :: v in at && (v !in host || host[v] !in at) ==> at[v] == was[v]
    }

    static lemma NoneTouched(at: map<Id, Shape>, host: map<Id, Id>)
      ensures Untouched(at, at, host)
    {
    }

    static lemma TouchedOnce(at: map<Id, Shape>, at0: map<Id, Shape>, was: map<Id, Shape>, host: map<Id, Id>)
      requires Untouched(at, at0, host) && Untouched(at0, was, host)
      ensures Untouched(at, was, host)
    {
    }

    static lemma JustHung(at: map<Id, Shape>, events: seq<Id>, host: map<Id, Id>, h: Id, group: seq<Id>)
      requires group == Siblings(events, host, h) && forall e :: e in group ==> e in at
      requires h in at && h !in group ==> forall i :: 0 <= i < |group| ==> at[group[i]] == HungAt(at[group[i]], at[h], |group|, i)
      ensures HungUnder(at, events, host, h)
    {
      SiblingsMembers(events, host, h);
      hide Siblings, HungAt;
      assert forall i :: 0 <= i < |group| ==> group[i] in group;
    }

    static lemma AllHungFrom(at: map<Id, Shape>, events: seq<Id>, host: map<Id, Id>, hostOrder: seq<Id>)
      requires HostsListed(hostOrder, events, host)
      requires forall j :: 0 <= j < |hostOrder| ==> HungUnder(at, events, host, hostOrder[j])
      ensures AllHung(at, events, host)
    {
      hide Siblings, HungAt, HungUnder;
      forall h | Siblings(events, host, h) != [] ensures HungUnder(at, events, host, h) {
        var j :| 0 <= j < |hostOrder| && hostOrder[j] == h;
      }
      AllHungUnder(at, events, host);
    }

    static lemma AllHungUnder(at: map<Id, Shape>, events: seq<Id>, host: map<Id, Id>)
      requires forall h :: Siblings(events, host, h) != [] ==> HungUnder(at, events, host, h)
      ensures AllHung(at, events, host)
    {
      hide Siblings, HungAt;
    }

    /** Hanging one host's events leaves those of another main host alone. */
    static lemma StillHung(was: map<Id, Shape>, at: map<Id, Shape>, events: seq<Id>, host: map<Id, Id>, g: Id, h: Id)
      requires HungUnder(was, events, host, g) && g != h && at.Keys == was.Keys
      requires forall v :: v in at && v !in Siblings(events, host, h) ==> at[v] == was[v]
      ensures HungUnder(at, events, host, g)
    {
      SiblingsMembers(events, host, g);
      SiblingsMembers(events, host, h);
      hide Siblings, HungAt;
      var group := Siblings(events, host, g);
      if g in at && g !in host {
        forall i | 0 <= i < |group| ensures group[i] in at && at[group[i]] == HungAt(at[group[i]], at[g], |group|, i) {
          assert group[i] in group;
        }
      }
    }

    static ghost predicate HungUnder(at: map<Id, Shape>, events: seq<Id>, host: map<Id, Id>, h: Id) {
      h in at && h !in host ==>
        var group := Siblings(events, host, h);
        forall i :: 0 <= i < |group| ==> group[i] in at && at[group[i]] == HungAt(at[group[i]], at[h], |group|, i)
    }

    method PlaceDataRefs() returns (ghost bottom: real)
      requires Sound(nodes, hosts, dataRefs) && nodes.keys != []
      modifies this`dataRefs
      ensures IsBottom(bottom, nodes.at) && IsDataRow(dataRefs, bottom)
      ensures |dataRefs| == |old(dataRefs)|
      ensures forall i :: 0 <= i < |dataRefs| ==> dataRefs[i].id == old(dataRefs[i].id) && dataRefs[i].w == old(dataRefs[i].w) && dataRefs[i].h == old(dataRefs[i].h)
    {
      hide Width, Height;
      var keys := nodes.keys;
      assert keys[0] in nodes.at;
      var maxBottom := nodes.at[keys[0]].cy + nodes.at[keys[0]].HalfHeight();
      for i := 1 to |keys|
        invariant forall v :: v in keys[..i] ==> nodes.at[v].cy + nodes.at[v].HalfHeight() <= maxBottom
        invariant exists v :: v in nodes.at && nodes.at[v].cy + nodes.at[v].HalfHeight() == maxBottom
      {
        assert keys[..i + 1] == keys[..i] + [keys[i]];
        assert keys[i] in nodes.at;
        var b := nodes.at[keys[i]].cy + nodes.at[keys[i]].HalfHeight();
        if b > maxBottom { maxBottom := b; }
      }
      assert keys[..|keys|] == keys;
      bottom := maxBottom;
      for position := 0 to |dataRefs|
        invariant |dataRefs| == |old(dataRefs)|
        invariant forall i :: 0 <= i < |dataRefs| ==> dataRefs[i].id == old(dataRefs[i].id) && dataRefs[i].w == old(dataRefs[i].w) && dataRefs[i].h == old(dataRefs[i].h)
        invariant IsDataRow(dataRefs[..position], bottom)
      {
        var r := dataRefs[position];
        var moved := r.(x := Trunc(BASE_X + position as real * 120.0 - r.w as real / 2.0), y := Trunc(maxBottom + 60.0));
        dataRefs := dataRefs[position := moved];
        assert dataRefs[..position + 1] == dataRefs[..position] + [moved];
      }
      assert dataRefs[..|dataRefs|] == dataRefs;
    }

    method ContentBoxes() returns (boxes: seq<Extent>)
      requires nodes.Valid()
      ensures boxes == ContentOf(Holds())
    {
      hide ShapeExtent, RefExtent;
      boxes := [];
      for i := 0 to |nodes.keys|
        invariant boxes == NodeExtents(nodes.keys[..i], nodes.at)
      {
        assert nodes.keys[i] in nodes.at;
        boxes := boxes + [ShapeExtent(nodes.at[nodes.keys[i]])];
      }
      assert nodes.keys[..|nodes.keys|] == nodes.keys;
      for i := 0 to |dataRefs|
        invariant boxes == NodeExtents(nodes.keys, nodes.at) + RefExtents(dataRefs[..i])
      {
        boxes := boxes + [RefExtent(dataRefs[i])];
      }
      assert dataRefs[..|dataRefs|] == dataRefs;
    }

    method SizeLanes() returns (ghost outline: Extent)
      requires Sound(nodes, hosts, dataRefs) && nodes.keys != []
      modifies this`lanes
      ensures IsHull(outline, ContentOf(Holds()))
      ensures |lanes| == |old(lanes)|
      ensures forall i :: 0 <= i < |lanes| ==> lanes[i] == Lane(old(lanes[i].id), LaneAt(outline, |lanes|, i))
    {
      var boxes := ContentBoxes();
      var e := Hull(boxes);
      outline := e;
      var n := |lanes|;
      for i := 0 to n
        invariant |lanes| == n
        invariant forall j :: 0 <= j < i ==> lanes[j] == Lane(old(lanes[j].id), LaneAt(e, n, j))
        invariant forall j :: i <= j < n ==> lanes[j] == old(lanes[j])
      {
        lanes := lanes[i := Lane(lanes[i].id, LaneAt(e, n, i))];
      }
    }

    ghost predicate Finished(t: Trace, baseY: real)
      reads this
    {
      IsFinished(Holds(), t, baseY)
    }

    method StartEvents(order: seq<Id>) returns (starts: set<Id>)
      ensures forall v :: v in starts <==> v in order && v in StartsOf(nodes)
    {
      starts := set v | v in order && v in nodes.at && nodes.at[v].kind == TagStartEvent;
    }

    /** Layers, columns and boundary events. */
    method PlaceNodes(baseY: real, order: seq<Id>)
      returns (ghost layerOf: map<Id, nat>, ghost visited: set<Id>, ghost visits: seq<Id>, ghost columns: seq<seq<Id>>, ghost incoming: map<Id, seq<Id>>)
      requires Valid() && IsOrderOf(order, Main()) && order != []
      modifies this`nodes
      ensures SameNodes(nodes, old(nodes)) && Sound(nodes, hosts, dataRefs)
      ensures IsLaidOut(nodes, hosts, layerOf, columns, incoming, baseY)
      ensures IsFlowLayering(layerOf, visited, LiftedArcs(flows, hosts.at, old(Main())), old(Main()))
      ensures IsVisitOrder(visits, visited, HasSource(Before(LiftedArcs(flows, hosts.at, old(Main())), old(Main()))))
      ensures StartsRight(visits, Before(LiftedArcs(flows, hosts.at, old(Main())), old(Main())), StartsOf(nodes))
      ensures forall v :: Lookup(incoming, v) == Incoming(LiftedArcs(flows, hosts.at, old(Main())), v)
      ensures forall v :: v in hosts.at && v in nodes.at && hosts.at[v] !in nodes.at ==> v in old(nodes.at) && nodes.at[v] == old(nodes.at)[v]
    {
      hide *;
      OrderFacts(order);
      ghost var was, main := nodes, Main();
      var mainIds := set v | v in order;
      var outgoing, before := LiftEdges(flows, hosts.at, mainIds);
      incoming := before;
      ghost var arcs := LiftedArcs(flows, hosts.at, main);
      LiftedWithin(flows, hosts.at, main);
      var starts := StartEvents(order);
      var layers;
      layers, visited, visits := LayerNodes(order, outgoing, before, starts, arcs);
      layerOf := layers;
      BeforeIsIncoming(arcs, main);
      StartsAmong(visits, Before(arcs, main), starts, nodes);
      LayerKeys(layerOf, visited, arcs, main);
      columns := AssignCoordinates(order, layers, before, baseY);
      ghost var placed := nodes;
      SameKeys(placed, was);
      SoundKept(nodes, was, hosts, dataRefs);
      HangBoundaryEvents();
      SoundKept(nodes, placed, hosts, dataRefs);
      StartsKept(placed, was);
      StartsKept(nodes, placed);
      Hanging(was, placed, nodes, hosts, dataRefs, layerOf, columns, incoming, baseY);
    }

    /** What is known before and after hanging the events makes the layout. */
    static lemma Hanging(was: Dict<Id, Shape>, placed: Dict<Id, Shape>, nodes: Dict<Id, Shape>, hosts: Dict<Id, Id>, refs: seq<DataRef>,
                         layerOf: map<Id, nat>, columns: seq<seq<Id>>, incoming: map<Id, seq<Id>>, base: real)
      requires Sound(nodes, hosts, refs) && SameNodes(placed, was) && SameNodes(nodes, placed)
      requires layerOf.Keys == was.at.Keys - hosts.at.Keys
      requires forall v :: v in placed.at && v !in layerOf ==> v in was.at && placed.at[v] == was.at[v]
      requires IsArranged(placed.at, layerOf, columns, incoming, base)
      requires Untouched(nodes.at, placed.at, hosts.at) && AllHung(nodes.at, hosts.keys, hosts.at)
      ensures IsLaidOut(nodes, hosts, layerOf, columns, incoming, base)
      ensures SameNodes(nodes, was)
      ensures forall v :: v in hosts.at && v in nodes.at && hosts.at[v] !in nodes.at ==> v in was.at && nodes.at[v] == was.at[v]
      ensures layerOf.Keys == nodes.at.Keys - hosts.at.Keys
    {
      hide IsArranged, AllHung;
      ArrangedKept(placed.at, nodes.at, layerOf, columns, incoming, base);
    }

    lemma OrderFacts(order: seq<Id>)
      requires Valid() && IsOrderOf(order, Main())
      ensures Distinct(order) && (set v | v in order) == Main()
      ensures Main() == nodes.at.Keys - hosts.at.Keys
      ensures Sound(nodes, hosts, dataRefs)
    {
    }

    /**
     Lays the process out, for any order Python may iterate the node set in. It does
     nothing without nodes, and raises when every node is an attached boundary event.
     */
    method Layout(baseY: real, order: seq<Id>) returns (raised: bool, ghost t: Trace)
      requires Valid() && IsOrderOf(order, Main())
      modifies this
      ensures Valid() && flows == old(flows) && hosts == old(hosts) && SameNodes(nodes, old(nodes))
      ensures raised <==> nodes.keys != [] && order == []
      ensures nodes.keys == [] || raised ==> nodes == old(nodes) && dataRefs == old(dataRefs) && lanes == old(lanes)
      ensures nodes.keys != [] && !raised ==> Finished(t, baseY)
      ensures |lanes| == |old(lanes)| && forall i :: 0 <= i < |lanes| ==> lanes[i].id == old(lanes[i].id)
      ensures |dataRefs| == |old(dataRefs)| && forall i :: 0 <= i < |dataRefs| ==> dataRefs[i].id == old(dataRefs[i].id)
      ensures forall v :: v in hosts.at && hosts.at[v] !in nodes.at ==> nodes.at[v] == old(nodes.at[v])
    {
      hide *;
      OrderFacts(order);
      SameAsItself(nodes);
      raised := false;
      t := Trace(map[], {}, [], [], map[], 0.0, Extent(0.0, 0.0, 0.0, 0.0));
      if nodes.keys == [] {
        return;
      }
      if order == [] {
        raised := true;
        return;
      }
      ghost var main := Main();
      ghost var layerOf, visited, visits, columns, incoming := PlaceNodes(baseY, order);
      SameKeys(nodes, old(nodes));
      ghost var bottom := PlaceDataRefs();
      RefsResized(nodes, hosts, old(dataRefs), dataRefs);
      ghost var outline := SizeLanes();
      t := Trace(layerOf, visited, visits, columns, incoming, bottom, outline);
      FinishedNow(t, baseY, main);
    }

    lemma FinishedNow(t: Trace, baseY: real, main: set<Id>)
      requires Sound(nodes, hosts, dataRefs) && nodes.keys != [] && main == nodes.at.Keys - hosts.at.Keys
      requires IsLaidOut(nodes, hosts, t.layerOf, t.columns, t.incoming, baseY)
      requires IsFlowLayering(t.layerOf, t.visited, LiftedArcs(flows, hosts.at, main), main)
      requires IsVisitOrder(t.visits, t.visited, HasSource(Before(LiftedArcs(flows, hosts.at, main), main)))
      requires StartsRight(t.visits, Before(LiftedArcs(flows, hosts.at, main), main), StartsOf(nodes))
      requires forall v :: Lookup(t.incoming, v) == Incoming(LiftedArcs(flows, hosts.at, main), v)
      requires IsBottom(t.bottom, nodes.at) && IsDataRow(dataRefs, t.bottom) && IsHull(t.outline, ContentOf(Holds()))
      requires forall i :: 0 <= i < |lanes| ==> lanes[i].box == LaneAt(t.outline, |lanes|, i)
      ensures Valid() && Finished(t, baseY) && hosts.at.Keys <= nodes.at.Keys
    {
      hide IsLaidOut, IsFlowLayering, IsVisitOrder, StartsRight, StartsOf, HasSource, Before, IsBottom, IsDataRow, IsHull, LiftedArcs, Incoming, NodeExtents, RefExtents, LaneAt;
      assert Main() == main;
    }

    static lemma RefsResized(nodes: Dict<Id, Shape>, hosts: Dict<Id, Id>, was: seq<DataRef>, refs: seq<DataRef>)
      requires Sound(nodes, hosts, was) && |refs| == |was|
      requires forall i :: 0 <= i < |refs| ==> refs[i].w == was[i].w && refs[i].h == was[i].h
      ensures Sound(nodes, hosts, refs)
    {
    }

    /** The shapes put out for the flow nodes. */
    method EmitShapes() returns (boxes: seq<(Id, Box)>)
      requires Valid()
      ensures |boxes| == |nodes.keys|
      ensures forall i :: 0 <= i < |boxes| ==> nodes.keys[i] in nodes.at && boxes[i] == (nodes.keys[i], BoxOf(nodes.at[nodes.keys[i]]))
    {
      boxes := [];
      for i := 0 to |nodes.keys|
        invariant |boxes| == i
        invariant forall j :: 0 <= j < i ==> nodes.keys[j] in nodes.at && boxes[j] == (nodes.keys[j], BoxOf(nodes.at[nodes.keys[j]]))
      {
        assert nodes.keys[i] in nodes.at;
        boxes := boxes + [(nodes.keys[i], BoxOf(nodes.at[nodes.keys[i]]))];
      }
    }

    /** The edges put out: every flow with both ends among the nodes, with its way points. */
    method EmitEdges() returns (ways: seq<(Flow, seq<Point>)>)
      ensures ways == DrawnFlows(flows, nodes.at)
    {
      ways := [];
      for i := 0 to |flows|
        invariant ways == DrawnFlows(flows[..i], nodes.at)
      {
        assert flows[..i + 1][..i] == flows[..i];
        var f := flows[i];
        if f.source in nodes.at && f.target in nodes.at {
          ways := ways + [(f, Waypoints(LeavesAt(nodes.at[f.source]), EntersAt(nodes.at[f.target])))];
        }
      }
      assert flows[..|flows|] == flows;
    }

    /** The pool keeps around all lanes; without lanes, around all content. */
    method PoolBounds() returns (x: int, y: int, w: int, h: int)
      requires Valid() && (lanes != [] || nodes.keys != [])
      ensures forall i :: 0 <= i < |lanes| ==> x + 30 <= lanes[i].box.x && lanes[i].box.x + lanes[i].box.w <= x + w
      ensures forall i :: 0 <= i < |lanes| ==> y <= lanes[i].box.y && lanes[i].box.y + lanes[i].box.h <= y + h
      ensures lanes != [] ==> exists i :: 0 <= i < |lanes| && lanes[i].box.x == x + 30
      ensures lanes != [] ==> exists i :: 0 <= i < |lanes| && lanes[i].box.y == y
      ensures lanes != [] ==> exists i :: 0 <= i < |lanes| && lanes[i].box.x + lanes[i].box.w == x + w
      ensures lanes != [] ==> exists i :: 0 <= i < |lanes| && lanes[i].box.y + lanes[i].box.h == y + h
      ensures lanes == [] ==> exists e :: IsHull(e, ContentOf(Holds())) && IsBarePool(e, x, y, w, h)
    {
      if lanes != [] {
        var left, top, right, bottom := LanesHull();
        return left - 30, top, right - (left - 30), bottom - top;
      } else {
        hide IsHull, Trunc;
        var boxes := ContentBoxes();
        var e := Hull(boxes);
        x, y := Trunc(e.left) - 80, Trunc(e.top) - 30;
        w, h := Trunc(e.right) + 50 - x, Trunc(e.bottom) + 30 - y;
        assert IsBarePool(e, x, y, w, h);
      }
    }

    method LanesHull() returns (left: int, top: int, right: int, bottom: int)
      requires lanes != []
      ensures forall i :: 0 <= i < |lanes| ==> left <= lanes[i].box.x && lanes[i].box.x + lanes[i].box.w <= right
      ensures forall i :: 0 <= i < |lanes| ==> top <= lanes[i].box.y && lanes[i].box.y + lanes[i].box.h <= bottom
      ensures exists i :: 0 <= i < |lanes| && lanes[i].box.x == left
      ensures exists i :: 0 <= i < |lanes| && lanes[i].box.y == top
      ensures exists i :: 0 <= i < |lanes| && lanes[i].box.x + lanes[i].box.w == right
      ensures exists i :: 0 <= i < |lanes| && lanes[i].box.y + lanes[i].box.h == bottom
    {
      left, top := lanes[0].box.x, lanes[0].box.y;
      right, bottom := left + lanes[0].box.w, top + lanes[0].box.h;
      for i := 1 to |lanes|
        invariant forall j :: 0 <= j < i ==> left <= lanes[j].box.x && lanes[j].box.x + lanes[j].box.w <= right
        invariant forall j :: 0 <= j < i ==> top <= lanes[j].box.y && lanes[j].box.y + lanes[j].box.h <= bottom
        invariant exists j :: 0 <= j < i && lanes[j].box.x == left
        invariant exists j :: 0 <= j < i && lanes[j].box.y == top
        invariant exists j :: 0 <= j < i && lanes[j].box.x + lanes[j].box.w == right
        invariant exists j :: 0 <= j < i && lanes[j].box.y + lanes[j].box.h == bottom
      {
        var b := lanes[i].box;
        if b.x < left { left := b.x; }
        if b.y < top { top := b.y; }
        if b.x + b.w > right { right := b.x + b.w; }
        if b.y + b.h > bottom { bottom := b.y + b.h; }
      }
    }
  }

  /** The pool of a process without lanes. */
  ghost predicate IsBarePool(e: Extent, x: int, y: int, w: int, h: int) {
    x == Trunc(e.left) - 80 && y == Trunc(e.top) - 30 && x + w == Trunc(e.right) + 50 && y + h == Trunc(e.bottom) + 30
  }

  lemma SiblingsLast(events: seq<Id>, host: map<Id, Id>)
    ensures forall h :: Siblings([], host, h) == []
    ensures events != [] ==>
      var n := |events| - 1;
      forall h :: Siblings(events, host, h) == Siblings(events[..n], host, h) + if events[n] in host && host[events[n]] == h then [events[n]] else []
  {
  }

  function DrawnFlows(flows: seq<Flow>, at: map<Id, Shape>): seq<(Flow, seq<Point>)> {
    if flows == [] then []
    else
      var n := |flows| - 1;
      var f := flows[n];
      DrawnFlows(flows[..n], at) +
      if f.source in at && f.target in at then [(f, Waypoints(LeavesAt(at[f.source]), EntersAt(at[f.target])))] else []
  }

  ghost predicate BothKnown(f: Flow, at: map<Id, Shape>) {
    f.source in at && f.target in at
  }

  /** The flow with its way from source to target. */
  ghost predicate IsWayOf(drawn: (Flow, seq<Point>), f: Flow, at: map<Id, Shape>) {
    && drawn.0 == f && BothKnown(f, at)
    && drawn.1 == Waypoints(LeavesAt(at[f.source]), EntersAt(at[f.target]))
  }

  /** `which` lists, in order, the flows with both ends known. */
  ghost predicate ListsDrawn(which: seq<nat>, flows: seq<Flow>, at: map<Id, Shape>) {
    && (forall k, l :: 0 <= k < l < |which| ==> which[k] < which[l])
    && (forall k :: 0 <= k < |which| ==> which[k] < |flows|)
    && forall i :: 0 <= i < |flows| ==> (i in which <==> BothKnown(flows[i], at))
  }

  lemma FlowMore(which: seq<nat>, flows: seq<Flow>, f: Flow, at: map<Id, Shape>)
    requires ListsDrawn(which, flows, at)
    ensures ListsDrawn(if BothKnown(f, at) then which + [|flows|] else which, flows + [f], at)
  {
    hide BothKnown;
    var all, which' := flows + [f], if BothKnown(f, at) then which + [|flows|] else which;
    forall i | 0 <= i < |all| ensures i in which' <==> BothKnown(all[i], at) {
      assert i in which' <==> i in which || (i == |flows| && BothKnown(f, at));
      if i < |flows| { assert all[i] == flows[i]; } else { assert all[i] == f && i !in which; }
    }
  }

  /** The edges drawn are the flows with both ends known, one for one and in order, each from its source to its target. */
  lemma {:induction false} FlowsDrawn(flows: seq<Flow>, at: map<Id, Shape>) returns (which: seq<nat>)
    ensures ListsDrawn(which, flows, at) && |which| == |DrawnFlows(flows, at)|
    ensures forall k :: 0 <= k < |which| ==> which[k] < |flows| && IsWayOf(DrawnFlows(flows, at)[k], flows[which[k]], at)
  {
    hide ListsDrawn, Waypoints, LeavesAt, EntersAt;
    if flows == [] {
      which := [];
      NoneDrawn(at);
    } else {
      var n := |flows| - 1;
      which := FlowsDrawn(flows[..n], at);
      assert flows == flows[..n] + [flows[n]];
      FlowMore(which, flows[..n], flows[n], at);
      if BothKnown(flows[n], at) { which := which + [n]; }
    }
  }

  lemma NoneDrawn(at: map<Id, Shape>)
    ensures ListsDrawn([], [], at)
  {
  }

  lemma LayerKeys(layerOf: map<Id, nat>, visited: set<Id>, arcs: Arcs, main: set<Id>)
    requires IsFlowLayering(layerOf, visited, arcs, main)
    ensures layerOf.Keys == main
  {
    hide DependsOnCycle, IsLongest, HasSource;
  }

  /** Moving what is not layered leaves the arrangement as it is. */
  lemma ArrangedKept(at: map<Id, Shape>, at': map<Id, Shape>, layerOf: map<Id, nat>, columns: seq<seq<Id>>, incoming: map<Id, seq<Id>>, base: real)
    requires IsArranged(at, layerOf, columns, incoming, base)
    requires at'.Keys == at.Keys && forall v :: v in layerOf ==> at'[v] == at[v]
    ensures IsArranged(at', layerOf, columns, incoming, base)
  {
    hide IsColumn, IsOrderOf;
    assert CentresOf(at', layerOf.Keys) == CentresOf(at, layerOf.Keys);
  }
}
