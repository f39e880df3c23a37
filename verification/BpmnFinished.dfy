/**
 What a finished process layout promises (scripts/bpmn_add_di.py,
 `Process.layout`): boxes apart, edges running right, and lanes around the content.
 */
module BpmnFinished {
  import opened Collections
  import opened Chains
  import opened Xml
  import opened BpmnLayers
  import opened BpmnGeometry
  import opened BpmnLayout
  import opened BpmnMedian
  import opened BpmnLanes
  import opened BpmnExtract
  import opened BpmnProcess

  /**
   Reads a process element and lays it out, whatever its ids. Nodes attached to nothing stay
   at the origin they were made at, so any two of them lie one on the other; apart from these
   and from nodes of one host, no two boxes overlap.
   */
  method LayOut(element: Node, baseY: real, order: seq<Id>) returns (p: Process, raised: bool, ghost t: Trace)
    requires IsOrderOf(order, MainOf(WithChildren(EMPTY, Children(element))))
    ensures fresh(p)
    ensures var c := WithChildren(EMPTY, Children(element));
      && (raised <==> c.nodes.keys != [] && order == [])
      && (c.nodes.keys == [] || raised ==> p.Holds() == c)
      && (c.nodes.keys != [] && !raised ==> IsFinished(p.Holds(), t, baseY))
      && SameNodes(p.nodes, c.nodes) && p.flows == c.flows && p.hosts == c.hosts
    ensures EventsAttached(p.nodes, p.hosts) <==> AttachedStay(Children(element))
    ensures OrphansPile(p.Holds()) && OnlyOrphansOverlap(p.Holds())
  {
    ReadIsSound(Children(element));
    EventsAttachedIff(Children(element));
    hide WithChildren, AttachedStay, IsFinished, OrphansPile, OnlyOrphansOverlap;
    p := new Process();
    p.Extract(element);
    ghost var c := p.Holds();
    raised, t := p.Layout(baseY, order);
    SameKeys(p.nodes, c.nodes);
    OrphansStay(c, p.Holds());
    if c.nodes.keys == [] || raised {
      NonePlaced(c);
    } else {
      AllPlaced(p.Holds(), t, baseY);
    }
  }

  /** Attached to a node the process does not have. */
  ghost predicate IsOrphan(c: Content, e: Id) {
    e in c.nodes.at && e in c.hosts.at && c.hosts.at[e] !in c.nodes.at
  }

  /** Left at the origin, or put where its layer or its host says. */
  ghost predicate HasPlace(c: Content, v: Id) {
    IsOrphan(c, v) || IsAnchored(c.nodes.at, c.hosts.at, v)
  }

  ghost predicate OrphansAtOrigin(c: Content) {
    forall v :: IsOrphan(c, v) ==> c.nodes.at[v].cx == 0.0 && c.nodes.at[v].cy == 0.0
  }

  /** Any two nodes attached to nothing overlap. */
  ghost predicate OrphansPile(c: Content) {
    forall u, v :: IsOrphan(c, u) && IsOrphan(c, v) ==> !Apart(BoxOf(c.nodes.at[u]), BoxOf(c.nodes.at[v]))
  }

  /** Of nodes with different anchors these and no others overlap. */
  ghost predicate OnlyOrphansOverlap(c: Content) {
    forall u, v :: HasPlace(c, u) && HasPlace(c, v) && Anchor(c.hosts.at, u) != Anchor(c.hosts.at, v) ==>
      (!Apart(BoxOf(c.nodes.at[u]), BoxOf(c.nodes.at[v])) <==> IsOrphan(c, u) && IsOrphan(c, v))
  }

  lemma OrphansStay(was: Content, c: Content)
    requires AtOrigin(was.nodes.at) && was.nodes.at.Keys == c.nodes.at.Keys
    requires forall v :: v in c.hosts.at && v in c.nodes.at && c.hosts.at[v] !in c.nodes.at ==> c.nodes.at[v] == was.nodes.at[v]
    ensures OrphansAtOrigin(c) && OrphansPile(c)
  {
    hide BoxOf, Apart;
    forall u, v | IsOrphan(c, u) && IsOrphan(c, v) ensures !Apart(BoxOf(c.nodes.at[u]), BoxOf(c.nodes.at[v])) {
      OrphansOverlap(c.nodes.at[u], c.nodes.at[v]);
    }
  }

  /** Without nodes, or with attached ones only, no node has a layer or a host to stand at. */
  lemma NonePlaced(c: Content)
    requires Sound(c.nodes, c.hosts, c.dataRefs) && (c.nodes.keys == [] || MainOf(c) == {}) && OrphansPile(c)
    ensures OnlyOrphansOverlap(c)
  {
    hide BoxOf, Apart;
    assert forall v :: v in c.nodes.at && v !in c.hosts.at ==> v in c.nodes.keys && v in MainOf(c);
  }

  lemma AllPlaced(c: Content, t: Trace, baseY: real)
    requires IsFinished(c, t, baseY) && OrphansAtOrigin(c) && OrphansPile(c)
    ensures OnlyOrphansOverlap(c)
  {
    hide IsFinished, HasPlace, IsOrphan, OrphansAtOrigin, BoxOf, Apart;
    forall u, v | HasPlace(c, u) && HasPlace(c, v) && Anchor(c.hosts.at, u) != Anchor(c.hosts.at, v)
      ensures u in c.nodes.at && v in c.nodes.at
      ensures Apart(BoxOf(c.nodes.at[u]), BoxOf(c.nodes.at[v])) || (IsOrphan(c, u) && IsOrphan(c, v))
    {
      PlacedApart(c, t, baseY, u, v);
    }
  }

  /** Of two nodes with different anchors, one in its place keeps apart from the other, even where that is at the origin. */
  lemma PlacedApart(c: Content, t: Trace, baseY: real, u: Id, v: Id)
    requires IsFinished(c, t, baseY) && OrphansAtOrigin(c)
    requires HasPlace(c, u) && HasPlace(c, v) && Anchor(c.hosts.at, u) != Anchor(c.hosts.at, v)
    ensures u in c.nodes.at && v in c.nodes.at
    ensures Apart(BoxOf(c.nodes.at[u]), BoxOf(c.nodes.at[v])) || (IsOrphan(c, u) && IsOrphan(c, v))
  {
    hide IsLaidOut, IsFlowLayering, IsVisitOrder, IsBottom, IsDataRow, LaneAt, IsHull, BoxOf, Apart, LiftedArcs, Incoming;
    if IsOrphan(c, u) {
      if !IsOrphan(c, v) { OrphanApart(c.nodes, c.hosts, t.layerOf, t.columns, t.incoming, baseY, c.nodes.at[u], v); }
    } else if IsOrphan(c, v) {
      OrphanApart(c.nodes, c.hosts, t.layerOf, t.columns, t.incoming, baseY, c.nodes.at[v], u);
    } else {
      NoOverlap(c.nodes, c.hosts, t.layerOf, t.columns, t.incoming, baseY, u, v);
    }
  }

  /** Boxes of nodes that do not share a host are apart, and data references are apart from every node and from each other. */
  lemma FinishedApart(c: Content, t: Trace, baseY: real, u: Id, v: Id)
    requires IsFinished(c, t, baseY) && u in c.nodes.at
    ensures IsAnchored(c.nodes.at, c.hosts.at, u) && IsAnchored(c.nodes.at, c.hosts.at, v) && Anchor(c.hosts.at, u) != Anchor(c.hosts.at, v) ==>
            Apart(BoxOf(c.nodes.at[u]), BoxOf(c.nodes.at[v]))
    ensures forall k :: 0 <= k < |c.dataRefs| ==> Apart(c.dataRefs[k].Bounds(), BoxOf(c.nodes.at[u]))
    ensures forall k, l :: 0 <= k < |c.dataRefs| && 0 <= l < |c.dataRefs| && k != l ==> Apart(c.dataRefs[k].Bounds(), c.dataRefs[l].Bounds())
  {
    hide IsLaidOut, IsFlowLayering, IsVisitOrder, IsBottom, IsDataRow, LaneAt, IsHull, BoxOf, LiftedArcs, Incoming;
    if IsAnchored(c.nodes.at, c.hosts.at, u) && IsAnchored(c.nodes.at, c.hosts.at, v) && Anchor(c.hosts.at, u) != Anchor(c.hosts.at, v) {
      NoOverlap(c.nodes, c.hosts, t.layerOf, t.columns, t.incoming, baseY, u, v);
    }
    forall k | 0 <= k < |c.dataRefs|
      ensures Apart(c.dataRefs[k].Bounds(), BoxOf(c.nodes.at[u]))
      ensures forall l :: 0 <= l < |c.dataRefs| && l != k ==> Apart(c.dataRefs[k].Bounds(), c.dataRefs[l].Bounds())
    {
      DataRefsApart(c.dataRefs, t.bottom, c.nodes.at, k);
    }
  }

  /** In an acyclic process every main node has been visited once, and every drawn edge into one runs right. */
  lemma FinishedRunsRight(c: Content, t: Trace, baseY: real, i: nat)
    requires IsFinished(c, t, baseY) && Acyclic(LiftedArcs(c.flows, c.hosts.at, MainOf(c)))
    ensures IsOrderOf(t.visits, MainOf(c))
    ensures i < |c.flows| && IsAnchored(c.nodes.at, c.hosts.at, c.flows[i].source) && c.flows[i].target in MainOf(c) ==>
      c.flows[i].target in c.nodes.at && RunsRight(Waypoints(LeavesAt(c.nodes.at[c.flows[i].source]), EntersAt(c.nodes.at[c.flows[i].target])))
  {
    hide IsFlowLayering, IsVisitOrder, HasSource, Before, IsBottom, IsDataRow, LaneAt, IsHull, LiftedArcs, Incoming, IsArranged, AllHung, RunsRight, Waypoints, LeavesAt, EntersAt, DependsOnCycle, IsOrderOf, Acyclic;
    assert t.layerOf.Keys == MainOf(c);
    LiftedWithin(c.flows, c.hosts.at, MainOf(c));
    AcyclicLayers(t.layerOf, t.visited, t.visits, LiftedArcs(c.flows, c.hosts.at, MainOf(c)), MainOf(c));
    if i < |c.flows| && IsAnchored(c.nodes.at, c.hosts.at, c.flows[i].source) && c.flows[i].target in MainOf(c) {
      AcyclicEdgesRunRight(c.nodes, c.hosts, t.layerOf, t.columns, t.incoming, baseY, t.visited, c.flows, i);
    }
  }

  /** Each later column is ordered by the medians of its nodes' predecessors, boundary sources lifted to their hosts, and centred on their mean. */
  lemma FinishedColumns(c: Content, t: Trace, baseY: real, layer: nat) returns (median: map<Id, real>)
    requires IsFinished(c, t, baseY) && 0 < layer < |t.columns| && t.columns[layer] != []
    ensures forall v :: v in t.columns[layer] <==> v in MainOf(c) && v in t.layerOf && t.layerOf[v] == layer
    ensures forall v :: v in t.columns[layer] ==> v in c.nodes.at && v in median
    ensures forall v :: v in t.columns[layer] ==>
      IsMedian(Incoming(LiftedArcs(c.flows, c.hosts.at, MainOf(c)), v), CentresLeftOf(c.nodes.at, t.layerOf, layer), baseY, median[v])
    ensures forall i, j :: 0 <= i < j < |t.columns[layer]| ==>
      t.columns[layer][i] in median && t.columns[layer][j] in median && median[t.columns[layer][i]] <= median[t.columns[layer][j]]
    ensures StandsEvenly(t.columns[layer], c.nodes.at, layer)
    ensures |t.columns[layer]| as real * Middle(t.columns[layer], c.nodes.at) == Sum(ValuesOf(t.columns[layer], median))
  {
    hide IsArranged, AllHung, IsFlowLayering, IsVisitOrder, IsBottom, IsDataRow, LaneAt, IsHull, LiftedArcs, Incoming, Lookup, IsMedian, CentresLeftOf, Sum, ValuesOf, Middle;
    median := ColumnByMedians(c.nodes.at, t.layerOf, t.columns, t.incoming, baseY, layer);
    assert t.layerOf.Keys == MainOf(c);
  }

  // ----- lanes around the content

  /** A box put out for a node or a data reference. */
  ghost predicate IsContentBox(c: Content, b: Box) {
    || (exists v :: v in c.nodes.at && b == BoxOf(c.nodes.at[v]))
    || (exists k :: 0 <= k < |c.dataRefs| && b == c.dataRefs[k].Bounds())
  }

  ghost predicate InSomeLane(c: Content, px: int, py: int) {
    exists i :: 0 <= i < |c.lanes| && Covers(c.lanes[i].box, px, py)
  }

  predicate PixelOf(b: Box, px: int, py: int) {
    b.x <= px < b.x + b.w && b.y <= py < b.y + b.h
  }

  /** Every pixel of every node and data reference lies in some lane. */
  ghost predicate LanesCoverAll(c: Content) {
    forall b, px, py :: IsContentBox(c, b) && PixelOf(b, px, py) ==> InSomeLane(c, px, py)
  }

  /** Up to 29 lanes cover the content wherever the base line is. */
  lemma FinishedLanesCover(c: Content, t: Trace, baseY: real)
    requires IsFinished(c, t, baseY) && 0 < |c.lanes| <= 29
    ensures LanesCoverAll(c)
  {
    hide IsLaidOut, IsFlowLayering, IsVisitOrder, IsBottom, IsDataRow, LaneAt, LanesEnd, Trunc, IsHull, IsContentBox, InSomeLane;
    forall b | IsContentBox(c, b) ensures b.y + b.h <= LanesEnd(t.outline, |c.lanes|) {
      ContentInside(c, t.outline, b);
      LastLaneReaches(t.outline, |c.lanes|, b);
    }
    ReachedIsCovered(c, t, baseY);
  }

  /** What ends where the lanes do or above is covered. */
  lemma ReachedIsCovered(c: Content, t: Trace, baseY: real)
    requires IsFinished(c, t, baseY) && 0 < |c.lanes|
    requires forall b :: IsContentBox(c, b) ==> b.y + b.h <= LanesEnd(t.outline, |c.lanes|)
    ensures LanesCoverAll(c)
  {
    hide IsLaidOut, IsFlowLayering, IsVisitOrder, IsBottom, IsDataRow, LaneAt, LanesEnd, Trunc, IsHull, IsContentBox, Covers;
    forall b, px, py | IsContentBox(c, b) && PixelOf(b, px, py) ensures InSomeLane(c, px, py) {
      ContentInside(c, t.outline, b);
      var i := LanesCover(t.outline, |c.lanes|, b, px, py);
      assert Covers(c.lanes[i].box, px, py);
    }
  }

  /** The leftmost column is centred on the base line, whichever layer it is: some node stands on it or below. */
  lemma SomeNodeAtBase(c: Content, t: Trace, baseY: real)
    requires IsFinished(c, t, baseY)
    ensures exists v :: v in c.nodes.at && c.nodes.at[v].cy >= baseY
  {
    hide IsBottom, IsDataRow, LaneAt, IsHull, AllHung, IsVisitOrder, IsColumn;
    assert t.visited != {} && t.visited <= t.layerOf.Keys;
    var w :| w in t.visited;
    var m := Leftmost(t.layerOf, w);
    ColumnAtBase(c.nodes.at, t.layerOf, t.columns, t.incoming, baseY, m);
  }

  /** The lowest layer in use. */
  lemma {:induction false} Leftmost(layerOf: map<Id, nat>, v: Id) returns (m: Id)
    requires v in layerOf
    ensures m in layerOf && forall w :: w in layerOf ==> layerOf[m] <= layerOf[w]
    decreases layerOf[v]
  {
    if w :| w in layerOf && layerOf[w] < layerOf[v] {
      m := Leftmost(layerOf, w);
    } else {
      m := v;
    }
  }

  lemma ColumnAtBase(at: map<Id, Shape>, layerOf: map<Id, nat>, columns: seq<seq<Id>>, incoming: map<Id, seq<Id>>, base: real, m: Id)
    requires IsArranged(at, layerOf, columns, incoming, base)
    requires m in layerOf && forall w :: w in layerOf ==> layerOf[m] <= layerOf[w]
    ensures exists v :: v in at && at[v].cy >= base
  {
    var layer := layerOf[m];
    var col, y := columns[layer], CentresOf(at, layerOf.Keys);
    assert Below(y, layerOf, layer) == map[];
    assert col != [] && IsColumn(col, layer, y, map[], incoming, base);
    CentredOnBase(col, layer, y, incoming, base);
    var n := |col|;
    assert Slot(n, base, n - 1) >= base;
    assert col[n - 1] in col && y[col[n - 1]] >= base;
  }

  /** A column with nothing to its left is centred on the base line. */
  lemma CentredOnBase(col: seq<Id>, layer: nat, y: map<Id, real>, incoming: map<Id, seq<Id>>, base: real)
    requires col != [] && IsColumn(col, layer, y, map[], incoming, base)
    ensures Evenly(col, y, base)
  {
    hide Medians, Evenly, Total, KeyLe;
    if layer > 0 {
      var medians := Medians(col, incoming, map[], base);
      MediansAlone(col, incoming, base);
      TotalOfEqual(col, medians, base);
      MeanOfEqual(|col|, base);
      assert Total(col, medians) / |col| as real == base;
    }
  }

  lemma MeanOfEqual(n: nat, base: real)
    requires n > 0
    ensures n as real * base / n as real == base
  {
  }

  lemma MediansAlone(col: seq<Id>, incoming: map<Id, seq<Id>>, base: real)
    ensures forall v :: v in col ==> v in Medians(col, incoming, map[], base) && Medians(col, incoming, map[], base)[v] == base
  {
    hide KnownYs;
    forall v | v in col ensures MedianY(Lookup(incoming, v), map[], base) == base { NoneKnown(Lookup(incoming, v)); }
  }

  lemma {:induction false} NoneKnown(ids: seq<Id>)
    ensures KnownYs(ids, map[]) == []
  {
    if ids == [] {
    } else {
      NoneKnown(ids[1..]);
    }
  }

  lemma {:induction false} TotalOfEqual(col: seq<Id>, key: map<Id, real>, base: real)
    requires forall v :: v in col ==> v in key && key[v] == base
    ensures Total(col, key) == |col| as real * base
  {
    if col == [] {
    } else {
      TotalOfEqual(col[1..], key, base);
      assert |col| as real == |col[1..]| as real + 1.0;
    }
  }

  /**
   On or below 62 px, which the script's base lines of 200 and more are, the last whole pixel
   of the content is that of its outline: no box ends below it, and one ends there.
   */
  lemma ContentEnds(c: Content, t: Trace, baseY: real) returns (last: Box)
    requires IsFinished(c, t, baseY) && baseY >= 62.0
    ensures forall b :: IsContentBox(c, b) ==> b.y + b.h <= t.outline.bottom.Floor
    ensures IsContentBox(c, last) && last.y + last.h == t.outline.bottom.Floor && last.w > 0 && last.h > 0
    ensures t.outline.top <= t.outline.bottom
  {
    hide IsLaidOut, IsFlowLayering, IsVisitOrder, IsBottom, IsDataRow, LaneAt, IsHull, BoxOf, ShapeExtent, IsContentBox;
    SomeNodeAtBase(c, t, baseY);
    var v :| v in c.nodes.at && c.nodes.at[v].cy >= baseY;
    BottomBelowBase(c, t.outline, v, baseY);
    forall b | IsContentBox(c, b) ensures b.y + b.h <= t.outline.bottom.Floor {
      ContentBoxEnds(c, t.outline, b);
    }
    last := LowestBox(c, t.outline);
    ContentInside(c, t.outline, last);
  }

  lemma BottomBelowBase(c: Content, e: Extent, v: Id, baseY: real)
    requires Sound(c.nodes, c.hosts, c.dataRefs) && IsHull(e, ContentOf(c)) && v in c.nodes.at && c.nodes.at[v].cy >= baseY
    ensures e.bottom >= baseY + 18.0
  {
    hide IsHull;
    NodeInContent(c.nodes, c.dataRefs, v);
    HullHolds(e, ContentOf(c), ShapeExtent(c.nodes.at[v]));
  }

  lemma ContentBoxEnds(c: Content, e: Extent, b: Box)
    requires Sound(c.nodes, c.hosts, c.dataRefs) && IsHull(e, ContentOf(c)) && IsContentBox(c, b) && e.bottom >= 80.0
    ensures b.y + b.h <= e.bottom.Floor
  {
    hide IsHull;
    if v :| v in c.nodes.at && b == BoxOf(c.nodes.at[v]) {
      NodeInContent(c.nodes, c.dataRefs, v);
      HullHolds(e, ContentOf(c), ShapeExtent(c.nodes.at[v]));
      NodeEnds(c.nodes.at[v], e.bottom);
    } else {
      var k :| 0 <= k < |c.dataRefs| && b == c.dataRefs[k].Bounds();
      RefInContent(c.nodes, c.dataRefs, k);
      HullHolds(e, ContentOf(c), RefExtent(c.dataRefs[k]));
    }
  }

  lemma NodeEnds(s: Shape, bottom: real)
    requires s.cy + s.HalfHeight() <= bottom && bottom >= 80.0
    ensures BoxOf(s).y + BoxOf(s).h <= bottom.Floor
    ensures s.cy + s.HalfHeight() == bottom ==> BoxOf(s).y + BoxOf(s).h == bottom.Floor
  {
    var y, h := s.cy - s.HalfHeight(), Height(s.kind);
    assert s.cy + s.HalfHeight() == y + h as real;
    TruncStep(y, h);
  }

  lemma LowestBox(c: Content, e: Extent) returns (b: Box)
    requires Sound(c.nodes, c.hosts, c.dataRefs) && IsHull(e, ContentOf(c)) && e.bottom >= 80.0
    ensures IsContentBox(c, b) && b.y + b.h == e.bottom.Floor && b.w > 0 && b.h > 0
  {
    hide BoxOf, ShapeExtent, RefExtent;
    var content := ContentOf(c);
    var x :| x in content && x.bottom == e.bottom;
    var i :| 0 <= i < |content| && content[i] == x;
    if i < |c.nodes.keys| {
      b := LowestNode(c, c.nodes.keys[i], e.bottom);
    } else {
      b := LowestRef(c, i - |c.nodes.keys|, e.bottom);
    }
  }

  lemma LowestNode(c: Content, v: Id, bottom: real) returns (b: Box)
    requires c.nodes.Valid() && v in c.nodes.keys && ShapeExtent(c.nodes.at[v]).bottom == bottom >= 80.0
    ensures IsContentBox(c, b) && b.y + b.h == bottom.Floor && b.w > 0 && b.h > 0
  {
    b := BoxOf(c.nodes.at[v]);
    NodeEnds(c.nodes.at[v], bottom);
  }

  lemma LowestRef(c: Content, k: nat, bottom: real) returns (b: Box)
    requires k < |c.dataRefs| && 0 < c.dataRefs[k].w && c.dataRefs[k].h == 50 && RefExtent(c.dataRefs[k]).bottom == bottom
    ensures IsContentBox(c, b) && b.y + b.h == bottom.Floor && b.w > 0 && b.h > 0
  {
    b := c.dataRefs[k].Bounds();
  }

  predicate IsWhole(e: Extent, top: int, bottom: int) {
    e.top == top as real && e.bottom == bottom as real
  }

  /**
   The lanes cover the content exactly when the padding makes up for what whole heights lose.
   On whole-number outlines that is: the padded height leaves a remainder of at most 30.
   */
  lemma LanesCoverIff(c: Content, t: Trace, baseY: real)
    requires IsFinished(c, t, baseY) && baseY >= 62.0 && |c.lanes| > 0
    ensures LanesCoverAll(c) <==> LanesReach(t.outline, |c.lanes|)
    ensures forall top, bottom :: IsWhole(t.outline, top, bottom) ==> (LanesCoverAll(c) <==> (bottom - top + 60) % |c.lanes| <= 30)
    ensures |c.lanes| <= 30 ==> LanesCoverAll(c)
  {
    hide IsLaidOut, IsFlowLayering, IsVisitOrder, IsBottom, IsDataRow, LaneAt, LanesEnd, LanesReach, IsHull, IsContentBox, LanesCoverAll;
    var e, n := t.outline, |c.lanes|;
    var last := ContentEnds(c, t, baseY);
    LanesEndIff(e, n);
    if LanesEnd(e, n) >= e.bottom.Floor {
      ReachedIsCovered(c, t, baseY);
    } else {
      Uncovered(c, t, baseY, last);
    }
    forall top, bottom | IsWhole(e, top, bottom)
      ensures LanesReach(e, n) <==> (bottom - top + 60) % n <= 30
    {
      WholeOutlineReaches(e, n, top, bottom);
    }
    if n <= 30 { ThirtyReach(e, n); }
  }

  // ----- thirty-two lanes can fall short

  /** Seven nodes one above the other: a gateway, five tasks and an event. */
  function StoreyAt(position: int): Shape {
    Shape(if position == 0 then TagExclusiveGateway else if position == 6 then TagEndEvent else TagTask,
          BASE_X, Y_SPACING * (position - 1) as real)
  }

  /** They stand in 32 lanes, and nothing flows between them. */
  ghost predicate IsTower(c: Content, t: Trace) {
    var ids, at := c.nodes.keys, c.nodes.at;
    && |ids| == 7 && c.nodes.Valid() && (forall i :: 0 <= i < 7 ==> at[ids[i]] == StoreyAt(i))
    && c.flows == [] && c.dataRefs == [] && c.hosts == Dict([], map[])
    && t.outline == Extent(130.0, -125.0, 230.0, 518.0)
    && |c.lanes| == 32 && (forall i :: 0 <= i < 32 ==> c.lanes[i].box == LaneAt(t.outline, 32, i))
    && t.layerOf.Keys == t.visited == at.Keys && (forall v :: v in t.layerOf ==> t.layerOf[v] == 0)
    && t.visits == ids && t.columns == [ids] && t.incoming == map[] && t.bottom == 518.0
  }

  lemma Storeys(c: Content, t: Trace)
    requires IsTower(c, t)
    ensures forall v :: v in c.nodes.at ==> exists i :: 0 <= i < 7 && c.nodes.at[v] == StoreyAt(i)
  {
    hide StoreyAt, LaneAt;
    forall v | v in c.nodes.at ensures exists i :: 0 <= i < 7 && c.nodes.at[v] == StoreyAt(i) {
      var i :| 0 <= i < 7 && c.nodes.keys[i] == v;
    }
  }

  lemma StoreySlot(i: nat)
    ensures StoreyAt(i).cy == Slot(7, 200.0, i) && StoreyAt(i).cx == BASE_X
  {
  }

  lemma TowerStands(c: Content, t: Trace)
    requires IsTower(c, t)
    ensures IsLaidOut(c.nodes, c.hosts, t.layerOf, t.columns, map[], 200.0)
  {
    TowerArranged(c, t);
    NothingHangs(c.nodes.at);
    hide LaneAt, IsArranged, AllHung, StoreyAt;
  }

  lemma NothingHangs(at: map<Id, Shape>)
    ensures AllHung(at, [], map[])
  {
    hide HungAt;
  }

  lemma TowerArranged(c: Content, t: Trace)
    requires IsTower(c, t)
    ensures IsArranged(c.nodes.at, t.layerOf, t.columns, map[], 200.0)
  {
    hide StoreyAt, LaneAt, IsColumn, CentresOf, Below;
    forall v | v in c.nodes.at ensures c.nodes.at[v].cx == BASE_X {
      Storeys(c, t);
      var i :| 0 <= i < 7 && c.nodes.at[v] == StoreyAt(i);
      StoreySlot(i);
    }
    TowerColumn(c, t);
    assert (set v | v in t.layerOf && t.layerOf[v] == 0) == c.nodes.at.Keys;
  }

  lemma TowerColumn(c: Content, t: Trace)
    requires IsTower(c, t)
    ensures IsColumn(c.nodes.keys, 0, CentresOf(c.nodes.at, t.layerOf.Keys), Below(CentresOf(c.nodes.at, t.layerOf.Keys), t.layerOf, 0), map[], 200.0)
  {
    hide StoreyAt, LaneAt, Slot, Below, Medians;
    var ids, y := c.nodes.keys, CentresOf(c.nodes.at, t.layerOf.Keys);
    forall i | 0 <= i < 7 ensures ids[i] in y && y[ids[i]] == Slot(7, 200.0, i) {
      StoreySlot(i);
      assert ids[i] in ids;
    }
  }

  lemma TowerFlows(c: Content, t: Trace)
    requires IsTower(c, t)
    ensures IsFlowLayering(t.layerOf, t.visited, [], t.visited)
    ensures forall once :: IsVisitOrder(t.visits, t.visited, once)
  {
    hide StoreyAt, LaneAt, IsLongest, DependsOnCycle;
    forall v ensures !DependsOnCycle([], v) && IsLongest([], v, 0) {
      NoArcs([], v);
      LongestIffFree([], v, {});
    }
    assert c.nodes.keys[0] in t.visited;
  }

  lemma TowerStarts(visits: seq<Id>, visited: set<Id>, starts: set<Id>)
    requires Distinct(visits) && visits != [] && forall v :: v in visits <==> v in visited
    ensures StartsRight(visits, Before([], visited), starts)
  {
    hide Distinct;
    assert visits[0] in visited && Before([], visited)[visits[0]] == [];
    assert visits[..|visits|] == visits;
    assert forall v :: v in FirstOf(Before([], visited), starts) <==> v in visits;
  }

  lemma TowerBottom(c: Content, t: Trace)
    requires IsTower(c, t)
    ensures IsBottom(518.0, c.nodes.at)
  {
    hide LaneAt, StoreyAt, Shape.HalfHeight;
    forall v | v in c.nodes.at ensures c.nodes.at[v].cy + c.nodes.at[v].HalfHeight() <= 518.0 {
      Storeys(c, t);
      var i :| 0 <= i < 7 && c.nodes.at[v] == StoreyAt(i);
      StoreyInside(i);
      assert ShapeExtent(StoreyAt(i)).bottom <= 518.0;
    }
    StoreysReach();
    assert c.nodes.keys[6] in c.nodes.at && ShapeExtent(c.nodes.at[c.nodes.keys[6]]).bottom == 518.0;
  }

  lemma TowerOutline(c: Content, t: Trace)
    requires IsTower(c, t)
    ensures IsHull(t.outline, ContentOf(c))
  {
    hide LaneAt, StoreyAt, ShapeExtent, IsHull;
    assert |ContentOf(c)| == 7 && forall i :: 0 <= i < 7 ==> ContentOf(c)[i] == ShapeExtent(StoreyAt(i));
    StoreysHull(ContentOf(c));
  }

  lemma StoreysHull(boxes: seq<Extent>)
    requires |boxes| == 7 && forall i :: 0 <= i < 7 ==> boxes[i] == ShapeExtent(StoreyAt(i))
    ensures IsHull(Extent(130.0, -125.0, 230.0, 518.0), boxes)
  {
    hide StoreyAt, ShapeExtent;
    forall i | 0 <= i < 7 ensures Within4(boxes[i], Extent(130.0, -125.0, 230.0, 518.0)) { StoreyInside(i); }
    assert boxes[0] in boxes && boxes[1] in boxes && boxes[6] in boxes;
    StoreysReach();
  }

  lemma StoreyInside(i: nat)
    requires i < 7
    ensures Within4(ShapeExtent(StoreyAt(i)), Extent(130.0, -125.0, 230.0, 518.0))
  {
  }

  lemma StoreysReach()
    ensures ShapeExtent(StoreyAt(0)).top == -125.0 && ShapeExtent(StoreyAt(6)).bottom == 518.0
    ensures ShapeExtent(StoreyAt(1)).left == 130.0 && ShapeExtent(StoreyAt(1)).right == 230.0
  {
    StoreySizes();
    hide Width, Height;
  }

  lemma StoreySizes()
    ensures Width(TagTask) == 100 && Height(TagExclusiveGateway) == 50 && Height(TagEndEvent) == 36
  {
  }

  lemma TowerFinished(c: Content, t: Trace)
    requires IsTower(c, t)
    ensures IsFinished(c, t, 200.0)
  {
    TowerStands(c, t);
    TowerFlows(c, t);
    TowerStarts(t.visits, t.visited, StartsOf(c.nodes));
    TowerBottom(c, t);
    TowerOutline(c, t);
    TowerSound(c, t);
    hide *;
    Assembled(c, t);
  }

  /** Without flows and data references, what the parts promise makes a finished layout. */
  lemma Assembled(c: Content, t: Trace)
    requires c.flows == [] && c.dataRefs == [] && t.incoming == map[] && MainOf(c) == t.visited
    requires Sound(c.nodes, c.hosts, c.dataRefs) && c.nodes.keys != []
    requires IsLaidOut(c.nodes, c.hosts, t.layerOf, t.columns, map[], 200.0)
    requires IsFlowLayering(t.layerOf, t.visited, [], t.visited)
    requires forall once :: IsVisitOrder(t.visits, t.visited, once)
    requires StartsRight(t.visits, Before([], t.visited), StartsOf(c.nodes))
    requires IsBottom(t.bottom, c.nodes.at) && IsHull(t.outline, ContentOf(c))
    requires forall i :: 0 <= i < |c.lanes| ==> c.lanes[i].box == LaneAt(t.outline, |c.lanes|, i)
    ensures IsFinished(c, t, 200.0)
  {
    hide Sound, MainOf, IsLaidOut, IsFlowLayering, IsVisitOrder, StartsRight, StartsOf, Before, HasSource, IsBottom, IsHull, ContentOf, LaneAt;
  }

  lemma TowerSound(c: Content, t: Trace)
    requires IsTower(c, t)
    ensures Sound(c.nodes, c.hosts, c.dataRefs) && MainOf(c) == t.visited
  {
    hide LaneAt, StoreyAt;
    assert IsOrderOf<Id>([], {});
  }

  /**
   Thirty-two lanes can fall short at the first base line already: around such a column,
   whatever its ids, they end one pixel above the event.
   */
  lemma ThirtyTwoLanesFallShort(ids: seq<Id>, lanes: seq<Id>) returns (c: Content, t: Trace)
    requires |ids| == 7 && Distinct(ids) && |lanes| == 32
    ensures IsFinished(c, t, 200.0) && c.nodes.keys == ids && |c.lanes| == 32
    ensures !LanesCoverAll(c) && LanesEnd(t.outline, 32) == 517 && t.outline.bottom == 518.0
  {
    c, t := TowerOf(ids, lanes);
    TowerFinished(c, t);
    TowerLanesEnd();
    assert t.outline == Extent(130.0, -125.0, 230.0, 518.0) && |c.lanes| == 32;
    hide *;
    LanesCoverIff(c, t, 200.0);
  }

  lemma TowerLanesEnd()
    ensures var e := Extent(130.0, -125.0, 230.0, 518.0); IsWhole(e, -125, 518) && LanesEnd(e, 32) == 517
  {
  }

  lemma TowerOf(ids: seq<Id>, lanes: seq<Id>) returns (c: Content, t: Trace)
    requires |ids| == 7 && Distinct(ids) && |lanes| == 32
    ensures IsTower(c, t) && c.nodes.keys == ids
  {
    hide StoreyAt, LaneAt;
    var at := map i | 0 <= i < 7 :: ids[i] := StoreyAt(i);
    var outline := Extent(130.0, -125.0, 230.0, 518.0);
    var boxed := seq(32, i requires 0 <= i < 32 => Lane(lanes[i], LaneAt(outline, 32, i)));
    c := Content(Dict(ids, at), [], [], boxed, Dict([], map[]));
    t := Trace(map v | v in at :: 0, at.Keys, ids, [ids], map[], 518.0, outline);
  }

  lemma Uncovered(c: Content, t: Trace, baseY: real, last: Box)
    requires IsFinished(c, t, baseY) && |c.lanes| > 0 && IsContentBox(c, last) && last.w > 0 && last.h > 0
    requires LanesEnd(t.outline, |c.lanes|) < last.y + last.h && t.outline.top <= t.outline.bottom
    ensures !LanesCoverAll(c)
  {
    hide IsLaidOut, IsFlowLayering, IsVisitOrder, IsBottom, IsDataRow, LaneAt, LanesEnd, IsHull, IsContentBox, Covers;
    NoneCovers(t.outline, |c.lanes|, last.x, last.y + last.h - 1);
    assert PixelOf(last, last.x, last.y + last.h - 1);
    assert !InSomeLane(c, last.x, last.y + last.h - 1);
  }

  /** The boxes put out are those of the content, truncated. */
  lemma ContentInside(c: Content, e: Extent, b: Box)
    requires Sound(c.nodes, c.hosts, c.dataRefs) && IsHull(e, ContentOf(c)) && IsContentBox(c, b)
    ensures Inside(b, e) && e.left <= e.right && e.top <= e.bottom
  {
    hide IsHull, BoxOf, ShapeExtent, Inside;
    if v :| v in c.nodes.at && b == BoxOf(c.nodes.at[v]) {
      NodeInContent(c.nodes, c.dataRefs, v);
      HullHolds(e, ContentOf(c), ShapeExtent(c.nodes.at[v]));
      BoxInside(c.nodes.at[v], e);
    } else {
      var k :| 0 <= k < |c.dataRefs| && b == c.dataRefs[k].Bounds();
      RefInContent(c.nodes, c.dataRefs, k);
      HullHolds(e, ContentOf(c), RefExtent(c.dataRefs[k]));
      RefInside(c.dataRefs[k], e);
    }
  }

  lemma HullHolds(e: Extent, boxes: seq<Extent>, b: Extent)
    requires IsHull(e, boxes) && b in boxes
    ensures Within4(b, e)
  {
  }

  lemma NodeInContent(nodes: Dict<Id, Shape>, refs: seq<DataRef>, v: Id)
    requires nodes.Valid() && v in nodes.at
    ensures ShapeExtent(nodes.at[v]) in NodeExtents(nodes.keys, nodes.at) + RefExtents(refs)
  {
    var k :| 0 <= k < |nodes.keys| && nodes.keys[k] == v;
    assert (NodeExtents(nodes.keys, nodes.at) + RefExtents(refs))[k] == ShapeExtent(nodes.at[v]);
  }

  lemma RefInContent(nodes: Dict<Id, Shape>, refs: seq<DataRef>, k: nat)
    requires nodes.Valid() && k < |refs|
    ensures RefExtent(refs[k]) in NodeExtents(nodes.keys, nodes.at) + RefExtents(refs)
  {
    assert (NodeExtents(nodes.keys, nodes.at) + RefExtents(refs))[|nodes.keys| + k] == RefExtent(refs[k]);
  }

  lemma BoxInside(s: Shape, e: Extent)
    requires Within4(ShapeExtent(s), e)
    ensures Inside(BoxOf(s), e) && e.left <= e.right && e.top <= e.bottom
  {
    var x, y := s.cx - s.HalfWidth(), s.cy - s.HalfHeight();
    assert BoxOf(s).x == Trunc(x) && BoxOf(s).y == Trunc(y);
  }

  lemma RefInside(r: DataRef, e: Extent)
    requires Within4(RefExtent(r), e)
    ensures Inside(r.Bounds(), e) && e.left <= e.right && e.top <= e.bottom
  {
    TruncWhole(r.x);
    TruncWhole(r.y);
    var x, y := r.x as real, r.y as real;
    assert r.Bounds().x == Trunc(x) && r.Bounds().y == Trunc(y);
  }
}
