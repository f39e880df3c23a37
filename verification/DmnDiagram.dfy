/**
 Diagram interchange (DMNDI), written by scripts/dmn_add_di.py
 (`generate_dmndi_xml`) and read by packages/js/sdk/src/dmn/parser.ts
 (`parseDMNDI` and below). The text between the two is taken as the element
 tree it denotes; numbers pass through their decimal numerals.
 */
module DmnDiagram {
  import opened Collections
  import opened Chains
  import opened Xml
  import opened Numerals
  import opened DmnLayers
  import opened DmnLayout
  import opened DmnCollect

  // ----- writing

  type EdgeKey = (string, Id, Id)

  function KeyOf(e: Edge): EdgeKey {
    (e.id, e.source, e.target)
  }

  predicate BothPlaced(e: Edge, positions: map<Id, Bounds>) {
    e.source in positions && e.target in positions
  }

  function BoundsNode(b: Bounds): Node {
    Elem(TagBounds, map[AttrX := Decimal(b.x), AttrY := Decimal(b.y), AttrWidth := Decimal(b.width), AttrHeight := Decimal(b.height)], [])
  }

  function ShapeNode(id: Id, b: Bounds): Node {
    Elem(TagDmnShape, map[AttrId := "Shape_" + id.name, AttrDmnElementRef := id.name], [BoundsNode(b)])
  }

  function WaypointNode(x: nat, y: nat): Node {
    Elem(TagWaypoint, map[AttrX := Decimal(x), AttrY := Decimal(y)], [])
  }

  /** From the middle of the source's top to the middle of the target's bottom. */
  function EdgeNode(e: Edge, source: Bounds, target: Bounds): Node {
    Elem(TagDmnEdge, map[AttrId := "Edge_" + e.id, AttrDmnElementRef := e.id],
         [WaypointNode(source.x + source.width / 2, source.y),
          WaypointNode(target.x + target.width / 2, target.y + target.height)])
  }

  /** The edges with both ends placed, without those whose key has come before. */
  function DrawnEdges(edges: seq<Edge>, placed: set<Id>): seq<Edge> {
    if edges == [] then []
    else
      var n := |edges| - 1;
      var drawn := DrawnEdges(edges[..n], placed);
      if edges[n].source in placed && edges[n].target in placed && edges[n] !in drawn then drawn + [edges[n]] else drawn
  }

  function ShapeNodes(ids: seq<Id>, positions: map<Id, Bounds>): seq<Node>
    requires forall id :: id in ids ==> id in positions
  {
    seq(|ids|, i requires 0 <= i < |ids| => assert ids[i] in ids; ShapeNode(ids[i], positions[ids[i]]))
  }

  function EdgeNodes(edges: seq<Edge>, positions: map<Id, Bounds>): seq<Node>
    requires forall e :: e in edges ==> BothPlaced(e, positions)
  {
    seq(|edges|, i requires 0 <= i < |edges| =>
      assert edges[i] in edges && BothPlaced(edges[i], positions); EdgeNode(edges[i], positions[edges[i].source], positions[edges[i].target]))
  }

  function DiagramNode(kids: seq<Node>): Node {
    Elem(TagDmnDi, map[], [Elem(TagDmnDiagram, map[AttrId := "DMNDiagram_1", AttrName := "DRD"], kids)])
  }

  lemma {:induction false} DrawnArePlaced(edges: seq<Edge>, placed: set<Id>)
    ensures forall e :: e in DrawnEdges(edges, placed) <==> e in edges && e.source in placed && e.target in placed
    ensures Distinct(DrawnEdges(edges, placed))
  {
    if edges == [] {
    } else {
      var n := |edges| - 1;
      DrawnArePlaced(edges[..n], placed);
      assert edges == edges[..n] + [edges[n]];
    }
  }

  method GenerateDmndi(edges: seq<Edge>, positions: map<Id, Bounds>, order: seq<Id>) returns (dmndi: Node, ids: seq<Id>)
    requires IsOrderOf(order, positions.Keys)
    ensures IsWritten(dmndi, ids, edges, positions)
  {
    hide IdLe, Sort;
    var sorted := Sort(order, IdLe);
    IdLeOrders();
    SortSorts(order, IdLe);
    SortKeeps(order, IdLe);
    SortDistinct(order, IdLe);
    hide Ordering, SortedBy;
    ids := sorted;
    var lines := GenerateShapes(sorted, positions);
    var edgeLines := GenerateEdges(edges, positions);
    dmndi := DiagramNode(lines + edgeLines);
  }

  method GenerateShapes(sorted: seq<Id>, positions: map<Id, Bounds>) returns (lines: seq<Node>)
    requires forall id :: id in sorted ==> id in positions
    ensures lines == ShapeNodes(sorted, positions)
  {
    lines := [];
    for i := 0 to |sorted|
      invariant lines == ShapeNodes(sorted[..i], positions)
    {
      hide ShapeNode;
      assert sorted[i] in sorted;
      lines := lines + [ShapeNode(sorted[i], positions[sorted[i]])];
    }
    assert sorted[..|sorted|] == sorted;
  }

  /** The loop keeps the keys it has seen in a set; edges are drawn once for each key. */
  method GenerateEdges(edges: seq<Edge>, positions: map<Id, Bounds>) returns (lines: seq<Node>)
    ensures forall e :: e in DrawnEdges(edges, positions.Keys) ==> BothPlaced(e, positions)
    ensures lines == EdgeNodes(DrawnEdges(edges, positions.Keys), positions)
  {
    lines := [];
    var seen: set<EdgeKey> := {};
    DrawnArePlaced(edges, positions.Keys);
    for i := 0 to |edges|
      invariant forall e :: e in DrawnEdges(edges[..i], positions.Keys) ==> BothPlaced(e, positions)
      invariant lines == EdgeNodes(DrawnEdges(edges[..i], positions.Keys), positions)
      invariant forall e: Edge :: KeyOf(e) in seen <==> e in DrawnEdges(edges[..i], positions.Keys)
    {
      var e := edges[i];
      assert edges[..i + 1][..i] == edges[..i];
      if e.source in positions && e.target in positions && KeyOf(e) !in seen {
        seen := seen + {KeyOf(e)};
        lines := lines + [EdgeNode(e, positions[e.source], positions[e.target])];
      }
    }
    assert edges[..|edges|] == edges;
  }

  // ----- reading

  datatype DmnBounds = DmnBounds(x: real, y: real, width: real, height: real)
  datatype DmnPoint = DmnPoint(x: real, y: real)
  datatype DmnShape = DmnShape(id: Option<string>, dmnElementRef: string, bounds: DmnBounds)
  datatype DmnEdge = DmnEdge(id: Option<string>, dmnElementRef: string, waypoints: seq<DmnPoint>)
  datatype Diagram = Diagram(id: Option<string>, name: Option<string>, shapes: seq<DmnShape>, edges: seq<DmnEdge>)

  /** A missing, empty or unreadable number is zero. */
  function FloatAttribute(node: Node, name: Attr): real {
    match ParseFloat(AttrOrEmpty(node, name)) case Some(v) => v case None => 0.0
  }

  function ReadBounds(node: Node): DmnBounds {
    DmnBounds(FloatAttribute(node, AttrX), FloatAttribute(node, AttrY), FloatAttribute(node, AttrWidth), FloatAttribute(node, AttrHeight))
  }

  function ReadDmnShape(node: Node): DmnShape {
    DmnShape(GetAttr(node, AttrId), AttrOrEmpty(node, AttrDmnElementRef),
             match FindElement(Children(node), TagBounds)
             case Some(b) => ReadBounds(b)
             case None => DmnBounds(0.0, 0.0, 0.0, 0.0))
  }

  function ReadPoints(kids: seq<Node>): seq<DmnPoint> {
    if kids == [] then []
    else
      var n := |kids| - 1;
      ReadPoints(kids[..n]) +
      if HasTag(kids[n], TagWaypoint) then [DmnPoint(FloatAttribute(kids[n], AttrX), FloatAttribute(kids[n], AttrY))] else []
  }

  function ReadDmnEdge(node: Node): DmnEdge {
    DmnEdge(GetAttr(node, AttrId), AttrOrEmpty(node, AttrDmnElementRef), ReadPoints(Children(node)))
  }

  function ReadShapes(kids: seq<Node>): seq<DmnShape> {
    if kids == [] then []
    else
      var n := |kids| - 1;
      ReadShapes(kids[..n]) + if HasTag(kids[n], TagDmnShape) then [ReadDmnShape(kids[n])] else []
  }

  function ReadEdges(kids: seq<Node>): seq<DmnEdge> {
    if kids == [] then []
    else
      var n := |kids| - 1;
      ReadEdges(kids[..n]) + if HasTag(kids[n], TagDmnEdge) then [ReadDmnEdge(kids[n])] else []
  }

  function ReadDiagram(node: Node): Diagram {
    Diagram(GetAttr(node, AttrId), GetAttr(node, AttrName), ReadShapes(Children(node)), ReadEdges(Children(node)))
  }

  function ReadDiagrams(kids: seq<Node>): seq<Diagram> {
    if kids == [] then []
    else
      var n := |kids| - 1;
      ReadDiagrams(kids[..n]) + if HasTag(kids[n], TagDmnDiagram) then [ReadDiagram(kids[n])] else []
  }

  method ParseDmnEdge(node: Node) returns (edge: DmnEdge)
    ensures edge == ReadDmnEdge(node)
  {
    hide FloatAttribute;
    var kids := Children(node);
    var waypoints: seq<DmnPoint> := [];
    for i := 0 to |kids|
      invariant waypoints == ReadPoints(kids[..i])
    {
      assert kids[..i + 1][..i] == kids[..i];
      if HasTag(kids[i], TagWaypoint) {
        waypoints := waypoints + [DmnPoint(FloatAttribute(kids[i], AttrX), FloatAttribute(kids[i], AttrY))];
      }
    }
    assert kids[..|kids|] == kids;
    edge := DmnEdge(GetAttr(node, AttrId), AttrOrEmpty(node, AttrDmnElementRef), waypoints);
  }

  lemma ReadLast(kids: seq<Node>, kid: Node)
    ensures ReadShapes(kids + [kid]) == ReadShapes(kids) + if HasTag(kid, TagDmnShape) then [ReadDmnShape(kid)] else []
    ensures ReadEdges(kids + [kid]) == ReadEdges(kids) + if HasTag(kid, TagDmnEdge) then [ReadDmnEdge(kid)] else []
    ensures ReadShapes([]) == [] && ReadEdges([]) == []
  {
    hide ReadDmnShape, ReadDmnEdge;
    assert (kids + [kid])[..|kids + [kid]| - 1] == kids;
  }

  method ParseDmnDiagram(node: Node) returns (diagram: Diagram)
    ensures diagram == ReadDiagram(node)
  {
    hide ReadDmnShape, ReadDmnEdge, ReadShapes, ReadEdges, GetAttr;
    var kids := Children(node);
    var shapes: seq<DmnShape>, edges: seq<DmnEdge> := [], [];
    ReadLast([], node);
    for i := 0 to |kids|
      invariant shapes == ReadShapes(kids[..i]) && edges == ReadEdges(kids[..i])
    {
      assert kids[..i + 1] == kids[..i] + [kids[i]];
      ReadLast(kids[..i], kids[i]);
      if HasTag(kids[i], TagDmnShape) {
        shapes := shapes + [ReadDmnShape(kids[i])];
      } else if HasTag(kids[i], TagDmnEdge) {
        var edge := ParseDmnEdge(kids[i]);
        edges := edges + [edge];
      }
    }
    assert kids[..|kids|] == kids;
    diagram := Diagram(GetAttr(node, AttrId), GetAttr(node, AttrName), shapes, edges);
  }

  method ParseDmndi(node: Node) returns (diagrams: seq<Diagram>)
    ensures diagrams == ReadDiagrams(Children(node))
  {
    var kids := Children(node);
    diagrams := [];
    for i := 0 to |kids|
      invariant diagrams == ReadDiagrams(kids[..i])
    {
      assert kids[..i + 1][..i] == kids[..i];
      if HasTag(kids[i], TagDmnDiagram) {
        var diagram := ParseDmnDiagram(kids[i]);
        diagrams := diagrams + [diagram];
      }
    }
    assert kids[..|kids|] == kids;
  }

  // ----- reading back what was written

  function AsRead(b: Bounds): DmnBounds {
    DmnBounds(b.x as real, b.y as real, b.width as real, b.height as real)
  }

  function ShapeAsRead(id: Id, b: Bounds): DmnShape {
    DmnShape(Some("Shape_" + id.name), id.name, AsRead(b))
  }

  function EdgeAsRead(e: Edge, source: Bounds, target: Bounds): DmnEdge {
    DmnEdge(Some("Edge_" + e.id), e.id,
            [DmnPoint((source.x + source.width / 2) as real, source.y as real),
             DmnPoint((target.x + target.width / 2) as real, (target.y + target.height) as real)])
  }

  lemma NumeralReadsBack(node: Node, name: Attr, n: nat)
    requires node.Elem? && name in node.attrs && node.attrs[name] == Decimal(n)
    ensures FloatAttribute(node, name) == n as real
  {
    DecimalReadsBack(n);
  }

  /** A number that is missing or cannot be read counts as zero; one that can be read counts as read. */
  lemma NumberOrZero(node: Node, name: Attr)
    ensures match GetAttr(node, name)
      case None => FloatAttribute(node, name) == 0.0
      case Some(text) => Some(FloatAttribute(node, name)) == if ParseFloat(text) == None then Some(0.0) else ParseFloat(text)
  {
    hide ParseFloat;
    var blank, sign, whole, point, fraction, tail := EveryTextBegins("");
    NumberReads("", blank, sign, whole, point, fraction, tail);
  }

  /** Of several bounds the first count, and without any the shape has neither place nor size. */
  lemma ShapeBounds(node: Node, i: nat)
    requires i <= |Children(node)| && forall j :: 0 <= j < i ==> !HasTag(Children(node)[j], TagBounds)
    ensures i < |Children(node)| && HasTag(Children(node)[i], TagBounds) ==>
      var b := Children(node)[i];
      ReadDmnShape(node).bounds == DmnBounds(FloatAttribute(b, AttrX), FloatAttribute(b, AttrY), FloatAttribute(b, AttrWidth), FloatAttribute(b, AttrHeight))
    ensures i == |Children(node)| ==> ReadDmnShape(node).bounds == DmnBounds(0.0, 0.0, 0.0, 0.0)
  {
    hide FloatAttribute, HasTag;
    if i < |Children(node)| {
      if HasTag(Children(node)[i], TagBounds) { FindElementMeans(Children(node), TagBounds, i); }
    } else {
      FindNothing(Children(node), TagBounds);
    }
  }

  lemma ShapeReadsBack(id: Id, b: Bounds)
    ensures ReadDmnShape(ShapeNode(id, b)) == ShapeAsRead(id, b)
  {
    hide FloatAttribute, Decimal;
    var bounds := BoundsNode(b);
    assert FindElement([bounds], TagBounds) == Some(bounds);
    NumeralReadsBack(bounds, AttrX, b.x);
    NumeralReadsBack(bounds, AttrY, b.y);
    NumeralReadsBack(bounds, AttrWidth, b.width);
    NumeralReadsBack(bounds, AttrHeight, b.height);
  }

  lemma WaypointReadsBack(x: nat, y: nat)
    ensures FloatAttribute(WaypointNode(x, y), AttrX) == x as real
    ensures FloatAttribute(WaypointNode(x, y), AttrY) == y as real
  {
    hide FloatAttribute, Decimal;
    NumeralReadsBack(WaypointNode(x, y), AttrX, x);
    NumeralReadsBack(WaypointNode(x, y), AttrY, y);
  }

  lemma TwoPoints(a: Node, b: Node)
    requires HasTag(a, TagWaypoint) && HasTag(b, TagWaypoint)
    ensures ReadPoints([a, b]) == [DmnPoint(FloatAttribute(a, AttrX), FloatAttribute(a, AttrY)), DmnPoint(FloatAttribute(b, AttrX), FloatAttribute(b, AttrY))]
  {
    assert [a, b][..1] == [a];
    assert [a][..0] == [];
    assert ReadPoints([a]) == ReadPoints([]) + [DmnPoint(FloatAttribute(a, AttrX), FloatAttribute(a, AttrY))];
  }

  lemma EdgeReadsBack(e: Edge, source: Bounds, target: Bounds)
    ensures ReadDmnEdge(EdgeNode(e, source, target)) == EdgeAsRead(e, source, target)
  {
    hide FloatAttribute, Decimal, ReadPoints;
    var a := WaypointNode(source.x + source.width / 2, source.y);
    var b := WaypointNode(target.x + target.width / 2, target.y + target.height);
    TwoPoints(a, b);
    WaypointReadsBack(source.x + source.width / 2, source.y);
    WaypointReadsBack(target.x + target.width / 2, target.y + target.height);
  }

  /** Reading passes over one list after the other. */
  lemma {:induction false} ReadsConcat(a: seq<Node>, b: seq<Node>)
    ensures ReadShapes(a + b) == ReadShapes(a) + ReadShapes(b)
    ensures ReadEdges(a + b) == ReadEdges(a) + ReadEdges(b)
  {
    if b == [] {
      assert a + b == a;
    } else {
      var rest, node := b[..|b| - 1], b[|b| - 1];
      assert b == rest + [node];
      ReadsConcat(a, rest);
      hide ReadShapes, ReadEdges, ReadDmnShape, ReadDmnEdge;
      ReadLast(a + rest, node);
      ReadLast(rest, node);
      CatAssociates(a, rest, [node]);
      CatAssociates(ReadShapes(a), ReadShapes(rest), if HasTag(node, TagDmnShape) then [ReadDmnShape(node)] else []);
      CatAssociates(ReadEdges(a), ReadEdges(rest), if HasTag(node, TagDmnEdge) then [ReadDmnEdge(node)] else []);
    }
  }

  function ShapesAsRead(ids: seq<Id>, positions: map<Id, Bounds>): seq<DmnShape>
    requires forall id :: id in ids ==> id in positions
  {
    seq(|ids|, i requires 0 <= i < |ids| => assert ids[i] in ids; ShapeAsRead(ids[i], positions[ids[i]]))
  }

  function EdgesAsRead(edges: seq<Edge>, positions: map<Id, Bounds>): seq<DmnEdge>
    requires forall e :: e in edges ==> BothPlaced(e, positions)
  {
    seq(|edges|, i requires 0 <= i < |edges| =>
      assert edges[i] in edges && BothPlaced(edges[i], positions); EdgeAsRead(edges[i], positions[edges[i].source], positions[edges[i].target]))
  }

  lemma ShapeNodesLast(ids: seq<Id>, id: Id, positions: map<Id, Bounds>)
    requires id in positions && forall x :: x in ids ==> x in positions
    ensures ShapeNodes(ids + [id], positions) == ShapeNodes(ids, positions) + [ShapeNode(id, positions[id])]
    ensures ShapesAsRead(ids + [id], positions) == ShapesAsRead(ids, positions) + [ShapeAsRead(id, positions[id])]
  {
    hide ShapeNode, ShapeAsRead;
  }

  lemma EdgeNodesLast(edges: seq<Edge>, e: Edge, positions: map<Id, Bounds>)
    requires BothPlaced(e, positions) && forall x :: x in edges ==> BothPlaced(x, positions)
    ensures EdgeNodes(edges + [e], positions) == EdgeNodes(edges, positions) + [EdgeNode(e, positions[e.source], positions[e.target])]
    ensures EdgesAsRead(edges + [e], positions) == EdgesAsRead(edges, positions) + [EdgeAsRead(e, positions[e.source], positions[e.target])]
  {
    hide EdgeNode, EdgeAsRead;
  }

  lemma {:induction false} ShapesReadBack(ids: seq<Id>, positions: map<Id, Bounds>)
    requires forall id :: id in ids ==> id in positions
    ensures ReadEdges(ShapeNodes(ids, positions)) == []
    ensures ReadShapes(ShapeNodes(ids, positions)) == ShapesAsRead(ids, positions)
  {
    if ids == [] {
    } else {
      var rest, id := ids[..|ids| - 1], ids[|ids| - 1];
      assert ids == rest + [id];
      ShapesReadBack(rest, positions);
      ShapeReadsBack(id, positions[id]);
      var node := ShapeNode(id, positions[id]);
      assert HasTag(node, TagDmnShape);
      ShapeNodesLast(rest, id, positions);
      hide ShapeNode, ReadDmnShape, ReadDmnEdge, ReadShapes, ReadEdges, ShapeAsRead, ShapeNodes, ShapesAsRead;
      ReadLast(ShapeNodes(rest, positions), node);
    }
  }

  lemma {:induction false} EdgesReadBack(edges: seq<Edge>, positions: map<Id, Bounds>)
    requires forall e :: e in edges ==> BothPlaced(e, positions)
    ensures ReadShapes(EdgeNodes(edges, positions)) == []
    ensures ReadEdges(EdgeNodes(edges, positions)) == EdgesAsRead(edges, positions)
  {
    if edges == [] {
    } else {
      var rest, e := edges[..|edges| - 1], edges[|edges| - 1];
      assert edges == rest + [e];
      assert BothPlaced(e, positions);
      EdgesReadBack(rest, positions);
      EdgeReadsBack(e, positions[e.source], positions[e.target]);
      var node := EdgeNode(e, positions[e.source], positions[e.target]);
      assert HasTag(node, TagDmnEdge);
      EdgeNodesLast(rest, e, positions);
      hide EdgeNode, ReadDmnShape, ReadDmnEdge, ReadShapes, ReadEdges, EdgeAsRead, EdgeNodes, EdgesAsRead;
      ReadLast(EdgeNodes(rest, positions), node);
    }
  }

  /**
   The reader recovers from a generated diagram every position, in id order, and every
   drawn edge with its two end points, in the order the edges were drawn.
   */
  lemma DiagramReadsBack(ids: seq<Id>, edges: seq<Edge>, positions: map<Id, Bounds>)
    requires forall id :: id in ids ==> id in positions
    requires forall e :: e in edges ==> BothPlaced(e, positions)
    ensures ReadDiagrams(Children(DiagramNode(ShapeNodes(ids, positions) + EdgeNodes(edges, positions)))) ==
      [Diagram(Some("DMNDiagram_1"), Some("DRD"), ShapesAsRead(ids, positions), EdgesAsRead(edges, positions))]
  {
    hide *;
    var kids := ShapeNodes(ids, positions) + EdgeNodes(edges, positions);
    KidsReadBack(ids, edges, positions);
    WrappedReadsBack(kids);
  }

  lemma WrappedReadsBack(kids: seq<Node>)
    ensures ReadDiagrams(Children(DiagramNode(kids))) == [Diagram(Some("DMNDiagram_1"), Some("DRD"), ReadShapes(kids), ReadEdges(kids))]
  {
    hide ReadShapes, ReadEdges, ReadDiagrams;
    OneDiagram(Elem(TagDmnDiagram, map[AttrId := "DMNDiagram_1", AttrName := "DRD"], kids));
  }

  lemma KidsReadBack(ids: seq<Id>, edges: seq<Edge>, positions: map<Id, Bounds>)
    requires forall id :: id in ids ==> id in positions
    requires forall e :: e in edges ==> BothPlaced(e, positions)
    ensures ReadShapes(ShapeNodes(ids, positions) + EdgeNodes(edges, positions)) == ShapesAsRead(ids, positions)
    ensures ReadEdges(ShapeNodes(ids, positions) + EdgeNodes(edges, positions)) == EdgesAsRead(edges, positions)
  {
    ShapesReadBack(ids, positions);
    EdgesReadBack(edges, positions);
    hide ShapeNodes, EdgeNodes, ReadShapes, ReadEdges, ShapesAsRead, EdgesAsRead;
    ReadsConcat(ShapeNodes(ids, positions), EdgeNodes(edges, positions));
  }

  lemma OneDiagram(diagram: Node)
    requires HasTag(diagram, TagDmnDiagram)
    ensures ReadDiagrams([diagram]) == [ReadDiagram(diagram)]
  {
    hide ReadDiagram;
    assert [diagram][..0] == [];
    assert ReadDiagrams([]) == [];
  }

  /** Where in `edges` an edge comes first. */
  ghost predicate FirstAt(edges: seq<Edge>, e: Edge, i: nat) {
    i < |edges| && edges[i] == e && e !in edges[..i]
  }

  lemma FirstIsLeast(edges: seq<Edge>, e: Edge, i: nat, m: nat)
    requires FirstAt(edges, e, i) && m < |edges| && edges[m] == e
    ensures i <= m
  {
    forall j | 0 <= j < i ensures edges[j] != e {
      assert edges[..i][j] in edges[..i];
    }
  }

  /** Drawn edges keep the order in which their keys first occur. */
  lemma {:induction false} DrawnInFirstOccurrenceOrder(edges: seq<Edge>, placed: set<Id>, i: nat, j: nat, a: nat, b: nat)
    requires var drawn := DrawnEdges(edges, placed);
             i < j < |drawn| && FirstAt(edges, drawn[i], a) && FirstAt(edges, drawn[j], b)
    ensures a < b
  {
    var n := |edges| - 1;
    var before := DrawnEdges(edges[..n], placed);
    var drawn := DrawnEdges(edges, placed);
    DrawnArePlaced(edges[..n], placed);
    assert before[i] in edges[..n] by { assert before[i] in before; }
    assert a < n by {
      var m :| 0 <= m < n && edges[..n][m] == before[i];
      FirstIsLeast(edges, before[i], a, m);
    }
    if j < |before| {
      assert before[j] in before;
      var m :| 0 <= m < n && edges[..n][m] == before[j];
      FirstIsLeast(edges, before[j], b, m);
      assert edges[..n][..a] == edges[..a] && edges[..n][..b] == edges[..b];
      DrawnInFirstOccurrenceOrder(edges[..n], placed, i, j, a, b);
    } else {
      assert drawn[j] == edges[n] && edges[n] !in before;
      forall m | 0 <= m < n ensures edges[m] != edges[n] {
        assert edges[..n][m] in edges[..n];
      }
    }
  }

  lemma {:induction false} RepeatsDrawNothing(edges: seq<Edge>, more: seq<Edge>, placed: set<Id>)
    requires forall e :: e in more ==> e in edges
    ensures DrawnEdges(edges + more, placed) == DrawnEdges(edges, placed)
  {
    if more == [] {
      assert edges + more == edges;
    } else {
      var n := |more| - 1;
      RepeatsDrawNothing(edges, more[..n], placed);
      assert (edges + more)[..|edges + more| - 1] == edges + more[..n];
      DrawnArePlaced(edges, placed);
      assert more[n] in more;
    }
  }

  /** What one run over a collected diagram puts out: its layers, positions and DMNDI element. */
  ghost predicate IsRun(drd: Drd, layers: map<Id, nat>, positions: map<Id, Bounds>, dmndi: Node) {
    && drd.elements.Valid() && drd.elements.keys != []
    && IsLayering(layers, DependencyGraph(drd.elements), drd.elements.at.Keys)
    && (exists rows :: IsPlaced(positions, rows, drd.elements, layers))
    && exists ids :: IsWritten(dmndi, ids, drd.edges, positions)
  }

  /** The diagram element holds a shape for every position, in id order, then the drawn edges. */
  ghost predicate IsWritten(dmndi: Node, ids: seq<Id>, edges: seq<Edge>, positions: map<Id, Bounds>) {
    var drawn := DrawnEdges(edges, positions.Keys);
    && IsOrderOf(ids, positions.Keys) && SortedBy(ids, IdLe)
    && (forall e :: e in drawn ==> BothPlaced(e, positions))
    && dmndi == DiagramNode(ShapeNodes(ids, positions) + EdgeNodes(drawn, positions))
  }

  /** The whole pipeline, for any orders Python may iterate its sets in. `None`: no diagram elements. */
  method AddDiagram(root: Node, order: seq<Id>, order': seq<Id>) returns (dmndi: Option<Node>, layers: map<Id, nat>, positions: map<Id, Bounds>)
    requires var drd := SecondPass(FirstPass(Children(root)), Children(root));
             IsOrderOf(order, drd.elements.at.Keys) && IsOrderOf(order', drd.elements.at.Keys)
    ensures var drd := SecondPass(FirstPass(Children(root)), Children(root));
            && (dmndi == None <==> drd.elements.keys == [])
            && (dmndi.Some? ==> IsRun(drd, layers, positions, dmndi.value))
  {
    var elements, edges := CollectElements(root);
    layers, positions := map[], map[];
    if elements.keys == [] {
      return None, layers, positions;
    }
    var layers0 := TopologicalLayers(elements, order);
    var positions0, rows := ComputeLayout(elements, layers0, order');
    assert elements.keys[0] in elements.at;
    assert IsPlaced(positions0, rows, elements, layers0);
    var tree, ids := GenerateDmndi(edges, positions0, order);
    dmndi, layers, positions := Some(tree), layers0, positions0;
  }

  /** A run is determined by the collected diagram, and repeats in it do not count. */
  lemma RunsAgree(a: Drd, layers: map<Id, nat>, positions: map<Id, Bounds>, dmndi: Node,
                  b: Drd, layers': map<Id, nat>, positions': map<Id, Bounds>, dmndi': Node)
    requires IsRun(a, layers, positions, dmndi) && IsRun(b, layers', positions', dmndi')
    requires SameButRepeats(a, b)
    ensures layers == layers' && positions == positions' && dmndi == dmndi'
  {
    SameGraph(a.elements, b.elements);
    LayersAgree(a.elements, b.elements, layers, layers');
    hide IsLayering, DependencyGraph;
    var rows :| IsPlaced(positions, rows, a.elements, layers);
    var rows' :| IsPlaced(positions', rows', b.elements, layers');
    PlacementUnique(positions, rows, a.elements, positions', rows', b.elements, layers);
    hide IsPlaced;
    var ids :| IsWritten(dmndi, ids, a.edges, positions);
    var ids' :| IsWritten(dmndi', ids', b.edges, positions);
    OutputsAgree(a.edges, b.edges, positions, dmndi, ids, dmndi', ids');
  }

  lemma OutputsAgree(edges: seq<Edge>, edges': seq<Edge>, positions: map<Id, Bounds>, dmndi: Node, ids: seq<Id>, dmndi': Node, ids': seq<Id>)
    requires edges <= edges' && forall e :: e in edges' ==> e in edges
    requires IsWritten(dmndi, ids, edges, positions) && IsWritten(dmndi', ids', edges', positions)
    ensures dmndi == dmndi'
  {
    SortedUnique(ids, ids');
    hide DiagramNode, ShapeNodes, EdgeNodes, DrawnEdges, Distinct, SortedBy;
    var more := edges'[|edges|..];
    assert edges' == edges + more;
    forall e | e in more ensures e in edges { assert e in edges'; }
    RepeatsDrawNothing(edges, more, positions.Keys);
  }

  lemma SameGraph(a: Elements, b: Elements)
    requires a.Valid() && b.Valid() && a.at.Keys == b.at.Keys
    requires forall id :: id in a.at ==> forall d :: d in a.at[id].dependencies <==> d in b.at[id].dependencies
    ensures forall e :: e in DependencyGraph(a) <==> e in DependencyGraph(b)
  {
    GraphHasDependencies(a);
    GraphHasDependencies(b);
    hide DependencyGraph;
    forall e ensures e in DependencyGraph(a) <==> e in DependencyGraph(b) {
      var (u, v) := e;
    }
  }

  lemma LayersAgree(a: Elements, b: Elements, layers: map<Id, nat>, layers': map<Id, nat>)
    requires a.Valid() && b.Valid() && a.at.Keys == b.at.Keys
    requires forall e :: e in DependencyGraph(a) <==> e in DependencyGraph(b)
    requires IsLayering(layers, DependencyGraph(a), a.at.Keys) && IsLayering(layers', DependencyGraph(b), a.at.Keys)
    ensures layers == layers'
  {
    hide IsLayering, DependencyGraph;
    GraphHasDependencies(a);
    DepsAreArcs(DependencyGraph(a), a);
    RepeatsDoNotMatter(layers, DependencyGraph(a), DependencyGraph(b), a.at.Keys);
    LayeringUnique(layers, layers', DependencyGraph(b), a.at.Keys);
  }

  /**
   Knowledge-source requirements are collected twice. With distinct ids that changes
   neither the layers, nor a position, nor the diagram put out.
   */
  lemma SecondPassInvisible(root: Node, layers: map<Id, nat>, positions: map<Id, Bounds>, dmndi: Node,
                            layers': map<Id, nat>, positions': map<Id, Bounds>, dmndi': Node)
    requires DistinctShapes(Children(root))
    requires IsRun(FirstPass(Children(root)), layers, positions, dmndi)
    requires IsRun(SecondPass(FirstPass(Children(root)), Children(root)), layers', positions', dmndi')
    ensures layers == layers' && positions == positions' && dmndi == dmndi'
  {
    var children := Children(root);
    SecondPassOnlyRepeats(children, |children|);
    assert children[..|children|] == children;
    hide FirstPass, SecondPass, IsRun, SameButRepeats;
    RunsAgree(FirstPass(children), layers, positions, dmndi, SecondPass(FirstPass(children), children), layers', positions', dmndi');
  }

  // ----- what a diagram says

  /** Where an edge starts fixes its source, and where it ends its target: no two elements share a top or a bottom centre. */
  lemma CentresDiffer(positions: map<Id, Bounds>, rows: seq<seq<Id>>, elements: Elements, layers: map<Id, nat>, u: Id, v: Id)
    requires IsPlaced(positions, rows, elements, layers) && u in positions && v in positions
    requires positions[u].x + positions[u].width / 2 == positions[v].x + positions[v].width / 2
    requires positions[u].y == positions[v].y || positions[u].y + positions[u].height == positions[v].y + positions[v].height
    ensures u == v
  {
    var i := RankOf(u, rows, layers);
    var j := RankOf(v, rows, layers);
    assert layers[u] == layers[v];
  }

  /** An edge as read says which requirement it is. */
  lemma EdgeReadIsOne(positions: map<Id, Bounds>, rows: seq<seq<Id>>, elements: Elements, layers: map<Id, nat>, e: Edge, f: Edge)
    requires IsPlaced(positions, rows, elements, layers) && BothPlaced(e, positions) && BothPlaced(f, positions)
    requires EdgeAsRead(e, positions[e.source], positions[e.target]) == EdgeAsRead(f, positions[f.source], positions[f.target])
    ensures e == f
  {
    hide IsPlaced;
    var a := EdgeAsRead(e, positions[e.source], positions[e.target]);
    var b := EdgeAsRead(f, positions[f.source], positions[f.target]);
    assert a.waypoints[0] == b.waypoints[0] && a.waypoints[1] == b.waypoints[1];
    CentresDiffer(positions, rows, elements, layers, e.source, f.source);
    CentresDiffer(positions, rows, elements, layers, e.target, f.target);
  }

  /** The edge is the only placed one that reads like this. */
  ghost predicate ReadsAs(r: DmnEdge, e: Edge, positions: map<Id, Bounds>) {
    && BothPlaced(e, positions) && r == EdgeAsRead(e, positions[e.source], positions[e.target])
    && forall f :: BothPlaced(f, positions) && r == EdgeAsRead(f, positions[f.source], positions[f.target]) ==> f == e
  }

  /**
   Reading back what one run has put out gives one diagram: its shapes are the positions,
   once each and in id order; its edges are pairwise distinct and stand one for one, in the
   order of first collection, for the distinct collected edges with both ends placed, whose
   id, source and target each of them determines.
   */
  lemma RunReadsBack(drd: Drd, layers: map<Id, nat>, positions: map<Id, Bounds>, dmndi: Node) returns (ids: seq<Id>)
    requires IsRun(drd, layers, positions, dmndi)
    ensures IsOrderOf(ids, positions.Keys) && SortedBy(ids, IdLe)
    ensures var diagrams := ReadDiagrams(Children(dmndi)); var drawn := DrawnEdges(drd.edges, positions.Keys);
      && |diagrams| == 1 && diagrams[0].shapes == ShapesAsRead(ids, positions)
      && Distinct(diagrams[0].edges) && |diagrams[0].edges| == |drawn|
      && forall i :: 0 <= i < |drawn| ==> ReadsAs(diagrams[0].edges[i], drawn[i], positions)
  {
    hide IsLayering, DependencyGraph, DrawnEdges, IsPlaced, ReadDiagrams, DiagramNode, ShapeNodes, EdgeNodes, ShapesAsRead, EdgeAsRead, SortedBy;
    var drawn := DrawnEdges(drd.edges, positions.Keys);
    ids :| IsWritten(dmndi, ids, drd.edges, positions);
    var rows :| IsPlaced(positions, rows, drd.elements, layers);
    DiagramReadsBack(ids, drawn, positions);
    DrawnArePlaced(drd.edges, positions.Keys);
    var read := ReadDiagrams(Children(dmndi))[0].edges;
    assert read == EdgesAsRead(drawn, positions);
    forall i | 0 <= i < |drawn| ensures ReadsAs(read[i], drawn[i], positions) {
      assert drawn[i] in drawn && BothPlaced(drawn[i], positions);
      forall f | BothPlaced(f, positions) && read[i] == EdgeAsRead(f, positions[f.source], positions[f.target]) ensures f == drawn[i] {
        EdgeReadIsOne(positions, rows, drd.elements, layers, drawn[i], f);
      }
    }
    forall i, j | 0 <= i < j < |drawn| ensures read[i] != read[j] {
      assert ReadsAs(read[i], drawn[i], positions) && ReadsAs(read[j], drawn[j], positions);
    }
  }

  // ----- drawn edges and layers

  /** It ends at least 40 px above its start. */
  ghost predicate Rises(e: Edge, positions: map<Id, Bounds>)
    requires BothPlaced(e, positions)
  {
    positions[e.target].y + positions[e.target].height + 40 <= positions[e.source].y
  }

  /**
   Whatever ids repeat, a drawn edge ends at least 40 px above its start if and only if some
   dependency chain into its target is longer than every one into its source. Otherwise it
   ends below its start.
   */
  lemma DrawnRisesIff(drd: Drd, layers: map<Id, nat>, positions: map<Id, Bounds>, dmndi: Node, e: Edge)
    requires IsRun(drd, layers, positions, dmndi)
    requires e in DrawnEdges(drd.edges, positions.Keys)
    ensures BothPlaced(e, positions)
    ensures Rises(e, positions) <==> Outreaches(DependencyGraph(drd.elements), e.target, e.source)
    ensures !Rises(e, positions) ==> positions[e.source].y < positions[e.target].y + positions[e.target].height
  {
    var elements, arcs := drd.elements, DependencyGraph(drd.elements);
    GraphHasDependencies(elements);
    DepsAreArcs(arcs, elements);
    hide IsLayering, DependencyGraph, DrawnEdges, IsPlaced, IsWritten, Outreaches, Within, DepsOf;
    DrawnArePlaced(drd.edges, positions.Keys);
    var rows :| IsPlaced(positions, rows, elements, layers);
    PlacedKeys(positions, rows, elements, layers);
    LayeringKeys(layers, arcs, elements.at.Keys);
    LowerIffOutreached(layers, arcs, elements.at.Keys, e.source, e.target);
    RisesIffLower(positions, rows, elements, layers, e.source, e.target);
  }

  /** All drawn edges rise exactly when that holds of every collected edge between two elements. */
  lemma AllRiseIff(drd: Drd, layers: map<Id, nat>, positions: map<Id, Bounds>, dmndi: Node)
    requires IsRun(drd, layers, positions, dmndi)
    ensures (forall e :: e in DrawnEdges(drd.edges, positions.Keys) ==> BothPlaced(e, positions) && Rises(e, positions)) <==>
            (forall e :: e in drd.edges && e.source in drd.elements.at && e.target in drd.elements.at ==>
               Outreaches(DependencyGraph(drd.elements), e.target, e.source))
  {
    hide IsLayering, DependencyGraph, DrawnEdges, IsPlaced, IsWritten, Outreaches, Rises;
    DrawnArePlaced(drd.edges, positions.Keys);
    var rows :| IsPlaced(positions, rows, drd.elements, layers);
    PlacedKeys(positions, rows, drd.elements, layers);
    LayeringKeys(layers, DependencyGraph(drd.elements), drd.elements.at.Keys);
    forall e | e in DrawnEdges(drd.edges, positions.Keys)
      ensures BothPlaced(e, positions) && (Rises(e, positions) <==> Outreaches(DependencyGraph(drd.elements), e.target, e.source))
    {
      DrawnRisesIff(drd, layers, positions, dmndi, e);
    }
  }

  /**
   For a document: all drawn edges rise exactly when every requirement any of its shapes has,
   overwritten or not, on a shape of it, goes from a shorter to a longer chain.
   */
  lemma DocumentRisesIff(root: Node, layers: map<Id, nat>, positions: map<Id, Bounds>, dmndi: Node)
    requires IsRun(SecondPass(FirstPass(Children(root)), Children(root)), layers, positions, dmndi)
    ensures var children := Children(root); var drd := SecondPass(FirstPass(children), children);
      (forall e :: e in DrawnEdges(drd.edges, positions.Keys) ==> BothPlaced(e, positions) && Rises(e, positions)) <==>
      (forall e :: EdgeOf(children, e) && LastShape(children, e.source).Some? ==> Outreaches(DependencyGraph(drd.elements), e.target, e.source))
  {
    hide IsRun, FirstPass, SecondPass, DependencyGraph, DrawnEdges, Outreaches, Rises, EdgeOf, LastShape, BothPlaced;
    var children := Children(root);
    var drd := SecondPass(FirstPass(children), children);
    AllRiseIff(drd, layers, positions, dmndi);
    forall e ensures e in drd.edges && e.source in drd.elements.at && e.target in drd.elements.at <==>
                     EdgeOf(children, e) && LastShape(children, e.source).Some? {
      EdgesRead(children, e);
      ElementsRead(children, e.source);
      ElementsRead(children, e.target);
    }
  }

  /**
   Where every collected edge is a dependency, a drawn edge rises if and only if its source
   does not depend on a cycle.
   */
  lemma DrawnEdgesRise(drd: Drd, layers: map<Id, nat>, positions: map<Id, Bounds>, dmndi: Node, e: Edge)
    requires IsRun(drd, layers, positions, dmndi) && EdgesAreDependencies(drd)
    requires e in DrawnEdges(drd.edges, positions.Keys)
    ensures BothPlaced(e, positions)
    ensures Rises(e, positions) <==> !DependsOnCycle(DependencyGraph(drd.elements), e.source)
  {
    var elements, arcs := drd.elements, DependencyGraph(drd.elements);
    GraphHasDependencies(elements);
    DepsAreArcs(arcs, elements);
    hide IsLayering, DependencyGraph, DrawnEdges, IsPlaced, DependsOnCycle, IsWritten, Outreaches, Rises, Within, DepsOf;
    DrawnRisesIff(drd, layers, positions, dmndi, e);
    DrawnArePlaced(drd.edges, positions.Keys);
    var rows :| IsPlaced(positions, rows, elements, layers);
    PlacedKeys(positions, rows, elements, layers);
    LayeringKeys(layers, arcs, elements.at.Keys);
    ArcOutreaches(arcs, elements.at.Keys, e.source, e.target);
  }

  lemma PlacedKeys(positions: map<Id, Bounds>, rows: seq<seq<Id>>, elements: Elements, layers: map<Id, nat>)
    requires IsPlaced(positions, rows, elements, layers)
    ensures positions.Keys == layers.Keys
  {
  }

  lemma LayeringKeys(layers: map<Id, nat>, arcs: Arcs, ids: set<Id>)
    requires IsLayering(layers, arcs, ids)
    ensures layers.Keys == ids
  {
  }

  /** With distinct ids this holds of every edge the script draws. */
  lemma DistinctEdgesRise(root: Node, layers: map<Id, nat>, positions: map<Id, Bounds>, dmndi: Node, e: Edge)
    requires DistinctShapes(Children(root))
    requires var drd := SecondPass(FirstPass(Children(root)), Children(root));
             IsRun(drd, layers, positions, dmndi) && e in DrawnEdges(drd.edges, positions.Keys)
    ensures BothPlaced(e, positions)
    ensures var drd := SecondPass(FirstPass(Children(root)), Children(root));
            Rises(e, positions) <==> !DependsOnCycle(DependencyGraph(drd.elements), e.source)
  {
    hide IsRun, FirstPass, SecondPass, DistinctShapes, DrawnEdges, EdgesAreDependencies, DependsOnCycle;
    DistinctEdgesAreDependencies(Children(root));
    DrawnEdgesRise(SecondPass(FirstPass(Children(root)), Children(root)), layers, positions, dmndi, e);
  }

  // ----- a repeated id

  const REQUIREMENT: Node := Elem(TagInformationRequirement, map[AttrId := "r"], [Elem(Other("requiredDecision"), map[AttrHref := "#B"], [])])
  const DECISION_A: Node := Elem(TagDecision, map[AttrId := "A"], [REQUIREMENT])
  const DECISION_B: Node := Elem(TagDecision, map[AttrId := "B"], [])
  const DECISION_A_AGAIN: Node := Elem(TagDecision, map[AttrId := "A"], [])

  /** A decision that requires another, that other, and the first once more without requirements. */
  const REPEATED: seq<Node> := [DECISION_A, DECISION_B, DECISION_A_AGAIN]

  lemma OwnEdgesOfA()
    ensures OwnEdges(Id("A"), DECISION_A.kids, false) == [Edge("r", Id("B"), Id("A"))]
  {
    var ref := Elem(Other("requiredDecision"), map[AttrHref := "#B"], []);
    assert "#B"[1..] == "B";
    assert TargetOf(ref) == Some(Id("B"));
    assert [ref][..0] == [] && [REQUIREMENT][..0] == [];
    assert RefEdges(REQUIREMENT, Id("A"), []) == [] && OwnEdges(Id("A"), [], false) == [];
    assert RefEdges(REQUIREMENT, Id("A"), [ref]) == [Edge("r", Id("B"), Id("A"))];
  }

  lemma RepeatedCollected()
    ensures var drd := SecondPass(FirstPass(REPEATED), REPEATED);
      && drd.edges == [Edge("r", Id("B"), Id("A"))] && drd.elements.at.Keys == {Id("A"), Id("B")}
      && drd.elements.at[Id("A")].dependencies == [] && drd.elements.at[Id("B")].dependencies == []
      && drd.elements.at[Id("A")].kind == Decision
  {
    RepeatedFirst();
    var first := FirstPass(REPEATED);
    hide FirstPass;
    RepeatedSecond(first);
  }

  lemma RepeatedShapes()
    ensures ShapeId(DECISION_A) == Some(Id("A")) && ShapeId(DECISION_B) == Some(Id("B")) && ShapeId(DECISION_A_AGAIN) == Some(Id("A"))
    ensures REPEATED[..2] == [DECISION_A, DECISION_B] && [DECISION_A, DECISION_B][..1] == [DECISION_A] && [DECISION_A][..0] == []
  {
  }

  lemma RepeatedFirst()
    ensures var drd := FirstPass(REPEATED);
      && drd.edges == [Edge("r", Id("B"), Id("A"))] && drd.elements.at.Keys == {Id("A"), Id("B")}
      && drd.elements.at[Id("A")].dependencies == [] && drd.elements.at[Id("B")].dependencies == []
      && drd.elements.at[Id("A")].kind == Decision
  {
    hide ShapeId;
    RepeatedShapes();
    hide ShapeId, NameOf, ReadShape;
    var one, two := FirstPass([DECISION_A]), FirstPass([DECISION_A, DECISION_B]);
    assert one == ReadShape(FirstPass([]), DECISION_A) && two == ReadShape(one, DECISION_B);
    assert FirstPass(REPEATED) == ReadShape(two, DECISION_A_AGAIN);
    RepeatedReads(one, two, FirstPass(REPEATED), FirstPass([]));
  }

  lemma RepeatedReads(one: Drd, two: Drd, three: Drd, start: Drd)
    requires start == Drd(Dict([], map[]), []) && one == ReadShape(start, DECISION_A)
    requires two == ReadShape(one, DECISION_B) && three == ReadShape(two, DECISION_A_AGAIN)
    ensures three.edges == [Edge("r", Id("B"), Id("A"))] && three.elements.at.Keys == {Id("A"), Id("B")}
    ensures three.elements.at[Id("A")].dependencies == [] && three.elements.at[Id("B")].dependencies == []
    ensures three.elements.at[Id("A")].kind == Decision
  {
    hide ShapeId, NameOf;
    RepeatedShapes();
    OwnEdgesOfA();
    assert OwnEdges(Id("B"), [], false) == [] && OwnEdges(Id("A"), [], false) == [] && Sources([]) == [];
  }

  lemma RepeatedSecond(first: Drd)
    ensures SecondPass(first, REPEATED) == first
  {
    RepeatedShapes();
    assert SecondPass(first, [DECISION_A]) == first;
    assert SecondPass(first, [DECISION_A, DECISION_B]) == first;
  }

  lemma RepeatedHasNoArcs(elements: Elements)
    requires elements.Valid() && elements.at.Keys == {Id("A"), Id("B")}
    requires elements.at[Id("A")].dependencies == [] && elements.at[Id("B")].dependencies == []
    ensures forall u, v :: (u, v) !in DependencyGraph(elements)
  {
    hide DependencyGraph;
    GraphHasDependencies(elements);
  }

  lemma RepeatedRow(layers: map<Id, nat>, arcs: Arcs, ids: set<Id>)
    requires IsLayering(layers, arcs, ids) && forall u, v :: (u, v) !in arcs
    ensures layers.Keys == ids && forall v :: v in ids ==> layers[v] == 0
  {
    hide IsLongest, DependsOnCycle;
    forall v | v in ids ensures layers[v] == 0 { NoArcs(arcs, v); }
  }

  /**
   Where a requirement is overwritten a drawn edge can fall: in every run over this document, whose kept
   elements depend on nothing, the one edge drawn ends 80 px below its start.
   */
  lemma RepeatedEdgeFalls(layers: map<Id, nat>, positions: map<Id, Bounds>, dmndi: Node)
    requires IsRun(SecondPass(FirstPass(REPEATED), REPEATED), layers, positions, dmndi)
    ensures !DistinctShapes(REPEATED) && !NothingOverwritten(REPEATED)
    ensures DrawnEdges(SecondPass(FirstPass(REPEATED), REPEATED).edges, positions.Keys) == [Edge("r", Id("B"), Id("A"))]
    ensures Acyclic(DependencyGraph(SecondPass(FirstPass(REPEATED), REPEATED).elements))
    ensures Id("A") in positions && Id("B") in positions
    ensures positions[Id("A")].y + positions[Id("A")].height == positions[Id("B")].y + 80
  {
    hide FirstPass, SecondPass, IsWritten, DependencyGraph, Acyclic, IsLayering, NothingOverwritten;
    var drd := SecondPass(FirstPass(REPEATED), REPEATED);
    RepeatedCollected();
    assert !DistinctShapes(REPEATED) by { RepeatedIds(); }
    EdgesAreDependenciesIff(REPEATED);
    assert drd.edges[0] in drd.edges;
    RepeatedHasNoArcs(drd.elements);
    NoArcs(DependencyGraph(drd.elements), Id("A"));
    RepeatedRow(layers, DependencyGraph(drd.elements), drd.elements.at.Keys);
    var rows :| IsPlaced(positions, rows, drd.elements, layers);
    PlacedKeys(positions, rows, drd.elements, layers);
    RepeatedPlace(positions, rows, drd.elements, layers);
    RepeatedDrawn(drd.edges, positions.Keys);
  }

  lemma RepeatedIds()
    ensures !DistinctShapes(REPEATED)
  {
    assert ShapeId(REPEATED[0]) == Some(Id("A")) && ShapeId(REPEATED[2]) == Some(Id("A"));
  }

  lemma RepeatedDrawn(edges: seq<Edge>, placed: set<Id>)
    requires edges == [Edge("r", Id("B"), Id("A"))] && Id("A") in placed && Id("B") in placed
    ensures DrawnEdges(edges, placed) == edges
  {
    assert edges[..0] == [];
    assert DrawnEdges([], placed) == [];
  }

  lemma RepeatedPlace(positions: map<Id, Bounds>, rows: seq<seq<Id>>, elements: Elements, layers: map<Id, nat>)
    requires IsPlaced(positions, rows, elements, layers) && layers.Keys == {Id("A"), Id("B")} && layers[Id("A")] == layers[Id("B")]
    requires elements.at[Id("A")].kind == Decision
    ensures positions[Id("A")].y + positions[Id("A")].height == positions[Id("B")].y + 80
  {
    var i := RankOf(Id("A"), rows, layers);
    hide IsPlaced;
    PlacedRow(positions, rows, elements, layers, Id("A"));
    PlacedRow(positions, rows, elements, layers, Id("B"));
  }
}
