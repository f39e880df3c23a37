/**
 Coordinates of a process diagram (scripts/bpmn_add_di.py, the second half of
 `Process.layout`, and the shapes and edges `generate_di` emits).
 */
module BpmnLayout {
  import opened Collections
  import opened Chains
  import opened Xml
  import opened BpmnLayers
  import opened BpmnGeometry

  datatype DataRef = DataRef(id: Id, w: nat, h: nat, x: int, y: int)
  {
    function Bounds(): Box { Box(x, y, w, h) }
  }

  // ----- columns

  predicate RealLe(a: real, b: real) {
    a <= b
  }

  function KnownYs(ids: seq<Id>, y: map<Id, real>): seq<real> {
    if ids == [] then []
    else (if ids[0] in y then [y[ids[0]]] else []) + KnownYs(ids[1..], y)
  }

  /** The upper median of the placed predecessors' centres; the base line where there are none. */
  function MedianY(predecessors: seq<Id>, y: map<Id, real>, base: real): real {
    var ys := Sort(KnownYs(predecessors, y), RealLe);
    if ys == [] then base else ys[|ys| / 2]
  }

  function Total(col: seq<Id>, key: map<Id, real>): real {
    if col == [] then 0.0 else (if col[0] in key then key[col[0]] else 0.0) + Total(col[1..], key)
  }

  predicate KeyLe(a: Id, b: Id, key: map<Id, real>) {
    (if a in key then key[a] else 0.0) <= (if b in key then key[b] else 0.0)
  }

  /** The place of the `i`-th of `n` members, `Y_SPACING` apart and centred on `center`. */
  function Slot(n: nat, center: real, i: nat): real {
    center - (n - 1) as real * Y_SPACING / 2.0 + i as real * Y_SPACING
  }

  ghost predicate Evenly(col: seq<Id>, y: map<Id, real>, center: real) {
    forall i :: 0 <= i < |col| ==> col[i] in y && y[col[i]] == Slot(|col|, center, i)
  }

  ghost function Medians(col: seq<Id>, incoming: map<Id, seq<Id>>, below: map<Id, real>, base: real): map<Id, real> {
    map v | v in col :: MedianY(Lookup(incoming, v), below, base)
  }

  /**
   A layer's column. Layer 0 is centred on the base line. In any other layer the members
   are in the order of their predecessors' medians and centred on the mean of these.
   */
  ghost predicate IsColumn(col: seq<Id>, layer: nat, y: map<Id, real>, below: map<Id, real>, incoming: map<Id, seq<Id>>, base: real) {
    var medians := Medians(col, incoming, below, base);
    if layer == 0 then Evenly(col, y, base)
    else
      && (forall i, j :: 0 <= i < j < |col| ==> KeyLe(col[i], col[j], medians))
      && (col != [] ==> Evenly(col, y, Total(col, medians) / |col| as real))
  }

  /** The part of the arrangement left of a layer. */
  ghost function Below(y: map<Id, real>, layerOf: map<Id, nat>, layer: nat): map<Id, real> {
    map v | v in y && v in layerOf && layerOf[v] < layer :: y[v]
  }

  ghost function CentresOf(at: map<Id, Shape>, main: set<Id>): map<Id, real> {
    map v | v in main && v in at :: at[v].cy
  }

  /** Every layer is a column, and a node's layer is its horizontal place. */
  ghost predicate IsArranged(at: map<Id, Shape>, layerOf: map<Id, nat>, columns: seq<seq<Id>>, incoming: map<Id, seq<Id>>, base: real) {
    var y := CentresOf(at, layerOf.Keys);
    && layerOf.Keys <= at.Keys
    && (forall v :: v in layerOf ==> layerOf[v] < |columns| && v in columns[layerOf[v]])
    && (forall v :: v in layerOf ==> at[v].cx == BASE_X + layerOf[v] as real * X_SPACING)
    && forall n :: 0 <= n < |columns| ==>
         && IsOrderOf(columns[n], set v | v in layerOf && layerOf[v] == n)
         && IsColumn(columns[n], n, y, Below(y, layerOf, n), incoming, base)
  }

  /** Two nodes of one layer are at least `Y_SPACING` apart. */
  lemma ColumnSpaced(at: map<Id, Shape>, layerOf: map<Id, nat>, columns: seq<seq<Id>>, incoming: map<Id, seq<Id>>, base: real, u: Id, v: Id)
    requires IsArranged(at, layerOf, columns, incoming, base)
    requires u in layerOf && v in layerOf && u != v && layerOf[u] == layerOf[v]
    ensures at[u].cy + Y_SPACING <= at[v].cy || at[v].cy + Y_SPACING <= at[u].cy
  {
    var col := columns[layerOf[u]];
    var y := CentresOf(at, layerOf.Keys);
    var i :| 0 <= i < |col| && col[i] == u;
    var j :| 0 <= j < |col| && col[j] == v;
    assert y[u] == at[u].cy && y[v] == at[v].cy;
    assert exists c :: Evenly(col, y, c);
    var c :| Evenly(col, y, c);
    EvenlySpaced(col, y, c, i, j);
  }

  lemma EvenlySpaced(col: seq<Id>, y: map<Id, real>, c: real, i: nat, j: nat)
    requires Evenly(col, y, c) && i < |col| && j < |col| && i != j
    ensures y[col[i]] + Y_SPACING <= y[col[j]] || y[col[j]] + Y_SPACING <= y[col[i]]
  {
  }

  // ----- boundary events

  /** The events attached to a host, in the order they were read. */
  function Siblings(events: seq<Id>, host: map<Id, Id>, h: Id): seq<Id> {
    if events == [] then []
    else
      var n := |events| - 1;
      Siblings(events[..n], host, h) + if events[n] in host && host[events[n]] == h then [events[n]] else []
  }

  /** On the bottom border of the host, at its share of the width. */
  function HungAt(event: Shape, host: Shape, count: nat, position: nat): Shape {
    event.(cx := host.cx - host.HalfWidth() + ShareOf(Width(host.kind), count, position),
           cy := host.cy + host.HalfHeight())
  }

  ghost predicate AllHung(at: map<Id, Shape>, events: seq<Id>, host: map<Id, Id>) {
    forall h, i :: h in at && h !in host && 0 <= i < |Siblings(events, host, h)| ==>
      var group := Siblings(events, host, h);
      group[i] in at && at[group[i]] == HungAt(at[group[i]], at[h], |group|, i)
  }

  lemma {:induction false} SiblingsMembers(events: seq<Id>, host: map<Id, Id>, h: Id)
    ensures forall e :: e in Siblings(events, host, h) <==> e in events && e in host && host[e] == h
    ensures Distinct(events) ==> Distinct(Siblings(events, host, h))
  {
    if events == [] {
    } else {
      SiblingsMembers(events[..|events| - 1], host, h);
      assert events == events[..|events| - 1] + [events[|events| - 1]];
    }
  }

  /** What a hung event keeps within: strictly between the host's sides, on its bottom border. */
  ghost predicate Hangs(event: Shape, host: Shape) {
    && host.cx - host.HalfWidth() < event.cx < host.cx + host.HalfWidth()
    && event.cy == host.cy + host.HalfHeight()
  }

  lemma HungHangs(at: map<Id, Shape>, events: seq<Id>, host: map<Id, Id>, e: Id)
    requires AllHung(at, events, host) && e in events && e in host && host[e] in at && host[e] !in host
    ensures e in at && Hangs(at[e], at[host[e]])
  {
    SiblingsMembers(events, host, host[e]);
    hide Siblings, ShareOf, Width;
    var group := Siblings(events, host, host[e]);
    var i :| 0 <= i < |group| && group[i] == e;
    PositiveSizes(at[host[e]].kind);
    ShareInside(Width(at[host[e]].kind), |group|, i);
    assert at[group[i]] == HungAt(at[group[i]], at[host[e]], |group|, i);
  }

  // ----- no overlap

  /** A finished layout of the flow nodes. */
  ghost predicate IsLaidOut(nodes: Dict<Id, Shape>, hosts: Dict<Id, Id>, layerOf: map<Id, nat>, columns: seq<seq<Id>>, incoming: map<Id, seq<Id>>, base: real) {
    && hosts.Valid() && hosts.at.Keys <= nodes.at.Keys
    && layerOf.Keys == nodes.at.Keys - hosts.at.Keys
    && IsArranged(nodes.at, layerOf, columns, incoming, base)
    && AllHung(nodes.at, hosts.keys, hosts.at)
  }

  /** Not attached, or a boundary event attached to a node that is not. */
  ghost predicate IsAnchored(at: map<Id, Shape>, hosts: map<Id, Id>, v: Id) {
    v in at && (v in hosts ==> at[v].kind == TagBoundaryEvent && hosts[v] in at && hosts[v] !in hosts)
  }

  /** The node itself, or the host it hangs on. */
  function Anchor(hosts: map<Id, Id>, v: Id): Id {
    if v in hosts then hosts[v] else v
  }

  /**
   No two emitted boxes overlap, unless both nodes belong to one host: as little as two
   pixels before truncation separate a boundary event from the node below its host.
   */
  lemma NoOverlap(nodes: Dict<Id, Shape>, hosts: Dict<Id, Id>, layerOf: map<Id, nat>, columns: seq<seq<Id>>, incoming: map<Id, seq<Id>>, base: real, u: Id, v: Id)
    requires IsLaidOut(nodes, hosts, layerOf, columns, incoming, base)
    requires IsAnchored(nodes.at, hosts.at, u) && IsAnchored(nodes.at, hosts.at, v) && Anchor(hosts.at, u) != Anchor(hosts.at, v)
    ensures Apart(BoxOf(nodes.at[u]), BoxOf(nodes.at[v]))
  {
    var a, b := Anchor(hosts.at, u), Anchor(hosts.at, v);
    if u in hosts.at { HungHangs(nodes.at, hosts.keys, hosts.at, u); }
    if v in hosts.at { HungHangs(nodes.at, hosts.keys, hosts.at, v); }
    if layerOf[a] == layerOf[b] {
      ColumnSpaced(nodes.at, layerOf, columns, incoming, base, a, b);
    }
    assert nodes.at[a].cx == BASE_X + layerOf[a] as real * X_SPACING;
    assert nodes.at[b].cx == BASE_X + layerOf[b] as real * X_SPACING;
    hide IsArranged, AllHung;
    AnchoredApart(nodes.at[u], nodes.at[a], layerOf[a], u != a, nodes.at[v], nodes.at[b], layerOf[b], v != b);
  }

  lemma AnchoredApart(p: Shape, a: Shape, m: nat, hung: bool, q: Shape, b: Shape, n: nat, hung': bool)
    requires if hung then p.kind == TagBoundaryEvent && Hangs(p, a) else p == a
    requires if hung' then q.kind == TagBoundaryEvent && Hangs(q, b) else q == b
    requires a.cx == BASE_X + m as real * X_SPACING && b.cx == BASE_X + n as real * X_SPACING
    requires m == n ==> a.cy + Y_SPACING <= b.cy || b.cy + Y_SPACING <= a.cy
    ensures Apart(BoxOf(p), BoxOf(q))
  {
    if m < n {
      assert a.cx + X_SPACING <= b.cx;
    } else if n < m {
      assert b.cx + X_SPACING <= a.cx;
    }
    FarApart(p, q);
  }

  /** The exception is real: an event overlaps its host, and neighbours on one host overlap each other. */
  lemma NeighboursOverlap(at: map<Id, Shape>, events: seq<Id>, host: map<Id, Id>, h: Id, i: nat)
    requires AllHung(at, events, host) && h in at && h !in host
    requires i < |Siblings(events, host, h)|
    requires forall e :: e in host && e in at ==> at[e].kind == TagBoundaryEvent
    ensures var group := Siblings(events, host, h); group[i] in at && !Apart(BoxOf(at[group[i]]), BoxOf(at[h]))
    ensures var group := Siblings(events, host, h);
      i + 1 < |group| ==> group[i + 1] in at && !Apart(BoxOf(at[group[i]]), BoxOf(at[group[i + 1]]))
  {
    SiblingsMembers(events, host, h);
    hide Siblings, ShareOf, Width, Height, Apart, BoxOf;
    var group := Siblings(events, host, h);
    var e := group[i];
    assert e in group;
    assert e in at && at[e] == HungAt(at[e], at[h], |group|, i);
    PositiveSizes(at[h].kind);
    ShareInside(Width(at[h].kind), |group|, i);
    BorderOverlap(at[e], at[h]);
    if i + 1 < |group| {
      var f := group[i + 1];
      assert f in group;
      assert f in at && at[f] == HungAt(at[f], at[h], |group|, i + 1);
      ShareStep(Width(at[h].kind), |group|, i);
      StepOverlap(at[e], at[f]);
    }
  }

  lemma PositiveSizes(kind: Tag)
    ensures 36 <= Width(kind) <= 100 && 36 <= Height(kind) <= 80
  {
  }

  lemma BorderOverlap(event: Shape, host: Shape)
    requires event.kind == TagBoundaryEvent && Hangs(event, host)
    ensures !Apart(BoxOf(event), BoxOf(host))
  {
    var left, right := host.cx - host.HalfWidth(), host.cx + host.HalfWidth();
    if event.cx - 18.0 <= left {
      TruncNear(event.cx - 18.0, left, 18);
    } else {
      TruncNear(left, event.cx - 18.0, Width(host.kind));
      TruncStrict(left, event.cx - 18.0, Width(host.kind));
    }
    TruncStrict(host.cy - host.HalfHeight(), event.cy - 18.0, Height(host.kind));
    TruncNear(host.cy - host.HalfHeight(), event.cy - 18.0, Height(host.kind));
  }

  /** A gap of at least one pixel less than `d` stays below `d`. */
  lemma TruncStrict(a: real, b: real, d: nat)
    requires a <= b <= a + d as real - 18.0
    ensures Trunc(b) < Trunc(a) + d
  {
  }

  lemma StepOverlap(p: Shape, q: Shape)
    requires p.kind == TagBoundaryEvent && q.kind == TagBoundaryEvent
    requires p.cy == q.cy && 0.0 < q.cx - p.cx < 34.0
    ensures !Apart(BoxOf(p), BoxOf(q))
  {
    TruncNear(p.cx - 18.0, q.cx - 18.0, 35);
  }

  /** Nodes attached to nothing stay at the origin, one on the other. */
  lemma OrphansOverlap(p: Shape, q: Shape)
    requires p.cx == p.cy == q.cx == q.cy == 0.0
    ensures !Apart(BoxOf(p), BoxOf(q))
  {
    PositiveSizes(p.kind);
    PositiveSizes(q.kind);
    hide Width, Height;
  }

  /** The origin is far from every node that has a place. */
  lemma OrphanApart(nodes: Dict<Id, Shape>, hosts: Dict<Id, Id>, layerOf: map<Id, nat>, columns: seq<seq<Id>>, incoming: map<Id, seq<Id>>, base: real, orphan: Shape, u: Id)
    requires IsLaidOut(nodes, hosts, layerOf, columns, incoming, base) && IsAnchored(nodes.at, hosts.at, u)
    requires orphan.cx == 0.0
    ensures Apart(BoxOf(orphan), BoxOf(nodes.at[u])) && Apart(BoxOf(nodes.at[u]), BoxOf(orphan))
  {
    var a := Anchor(hosts.at, u);
    if u in hosts.at { HungHangs(nodes.at, hosts.keys, hosts.at, u); }
    assert nodes.at[a].cx == BASE_X + layerOf[a] as real * X_SPACING;
    hide IsArranged, AllHung, BoxOf, Apart, Width, Height;
    PositiveSizes(orphan.kind);
    PositiveSizes(nodes.at[u].kind);
    PositiveSizes(nodes.at[a].kind);
    assert layerOf[a] as real * X_SPACING >= 0.0;
    FarApart(orphan, nodes.at[u]);
    FarApart(nodes.at[u], orphan);
  }

  // ----- data references

  /** A row below everything, 120 px from one to the next. */
  ghost predicate IsDataRow(refs: seq<DataRef>, bottom: real) {
    forall i :: 0 <= i < |refs| ==>
      && 0 < refs[i].w <= 50
      && refs[i].x == Trunc(BASE_X + i as real * 120.0 - refs[i].w as real / 2.0)
      && refs[i].y == Trunc(bottom + 60.0)
  }

  ghost predicate IsBottom(bottom: real, at: map<Id, Shape>) {
    && (forall v :: v in at ==> at[v].cy + at[v].HalfHeight() <= bottom)
    && exists v :: v in at && at[v].cy + at[v].HalfHeight() == bottom
  }

  /** Data references overlap neither each other nor any flow node. */
  lemma DataRefsApart(refs: seq<DataRef>, bottom: real, at: map<Id, Shape>, i: nat)
    requires IsDataRow(refs, bottom) && IsBottom(bottom, at) && i < |refs|
    ensures forall j :: 0 <= j < |refs| && j != i ==> Apart(refs[i].Bounds(), refs[j].Bounds())
    ensures forall v :: v in at ==> Apart(refs[i].Bounds(), BoxOf(at[v]))
  {
    forall j | 0 <= j < |refs| && j != i ensures Apart(refs[i].Bounds(), refs[j].Bounds()) {
      if i < j { RefsStep(refs, bottom, i, j); } else { RefsStep(refs, bottom, j, i); }
    }
    forall v | v in at ensures Apart(refs[i].Bounds(), BoxOf(at[v])) {
      TruncGap(at[v].cy - at[v].HalfHeight(), bottom + 60.0, Height(at[v].kind));
    }
  }

  lemma RefsStep(refs: seq<DataRef>, bottom: real, i: nat, j: nat)
    requires IsDataRow(refs, bottom) && i < j < |refs|
    ensures refs[i].x + refs[i].w <= refs[j].x
  {
    var step := (j - i) as real * 120.0;
    assert step >= 120.0;
    TruncGap(BASE_X + i as real * 120.0 - refs[i].w as real / 2.0, BASE_X + j as real * 120.0 - refs[j].w as real / 2.0, refs[i].w);
  }

  // ----- edges

  type Point = (int, int)

  /** Boundary events are left at the bottom, everything else on the right. */
  function LeavesAt(s: Shape): Point {
    if s.kind == TagBoundaryEvent then (Trunc(s.cx), Trunc(s.cy + s.HalfHeight()))
    else (Trunc(s.cx + s.HalfWidth()), Trunc(s.cy))
  }

  function EntersAt(s: Shape): Point {
    (Trunc(s.cx - s.HalfWidth()), Trunc(s.cy))
  }

  function Distance(a: int, b: int): nat {
    if a < b then b - a else a - b
  }

  /** A bend halfway, where the ends are far enough apart both ways. */
  function Waypoints(a: Point, b: Point): seq<Point> {
    var mid := (a.0 + b.0) / 2;
    if Distance(a.1, b.1) > 10 && Distance(a.0, b.0) > 50 then [a, (mid, a.1), (mid, b.1), b] else [a, b]
  }

  /** At most one pixel apart. */
  predicate Near(a: int, b: int) {
    -1 <= a - b <= 1
  }

  /**
   An edge leaves a boundary event in the middle of its lower border and any other node in
   the middle of its right one, and enters in the middle of the left one: exactly where the
   box has no negative side, to a pixel elsewhere.
   */
  lemma EndsOnBorders(s: Shape)
    ensures var box := BoxOf(s);
      if s.kind == TagBoundaryEvent then Near(LeavesAt(s).0, box.x + box.w / 2) && Near(LeavesAt(s).1, box.y + box.h)
      else Near(LeavesAt(s).0, box.x + box.w) && Near(LeavesAt(s).1, box.y + box.h / 2)
    ensures EntersAt(s).0 == BoxOf(s).x && Near(EntersAt(s).1, BoxOf(s).y + BoxOf(s).h / 2)
    ensures s.cx >= s.HalfWidth() && s.cy >= s.HalfHeight() ==>
      var box := BoxOf(s);
      && LeavesAt(s) == (if s.kind == TagBoundaryEvent then (box.x + box.w / 2, box.y + box.h) else (box.x + box.w, box.y + box.h / 2))
      && EntersAt(s) == (box.x, box.y + box.h / 2)
  {
    EvenSizes(s.kind);
    hide Width, Height, Trunc, Near;
    var w, h := Width(s.kind), Height(s.kind);
    var x, y := s.cx - s.HalfWidth(), s.cy - s.HalfHeight();
    Halves(s, w / 2, h / 2);
    Crosses(x, w / 2);
    Crosses(x, w);
    Crosses(y, h / 2);
    Crosses(y, h);
  }

  lemma Halves(s: Shape, w: nat, h: nat)
    requires Width(s.kind) == 2 * w && Height(s.kind) == 2 * h
    ensures s.cx == s.cx - s.HalfWidth() + w as real && s.cx + s.HalfWidth() == s.cx - s.HalfWidth() + Width(s.kind) as real
    ensures s.cy == s.cy - s.HalfHeight() + h as real && s.cy + s.HalfHeight() == s.cy - s.HalfHeight() + Height(s.kind) as real
  {
    hide Width, Height;
  }

  lemma EvenSizes(kind: Tag)
    ensures Width(kind) % 2 == 0 && Height(kind) % 2 == 0
  {
  }

  lemma Crosses(x: real, d: nat)
    ensures Near(Trunc(x + d as real), Trunc(x) + d)
    ensures x >= 0.0 ==> Trunc(x + d as real) == Trunc(x) + d
  {
  }

  /**
   A way goes straight where its ends are at most 10 px apart in height or 50 px sideways.
   Otherwise it is level up to the middle between them, upright there, and level again.
   */
  lemma WayGoes(a: Point, b: Point)
    ensures var way := Waypoints(a, b);
      && 2 <= |way| && way[0] == a && way[|way| - 1] == b
      && (|way| == 2 <==> -10 <= a.1 - b.1 <= 10 || -50 <= a.0 - b.0 <= 50)
      && (|way| != 2 ==> |way| == 4 && way[1].1 == a.1 && way[2].1 == b.1 && way[1].0 == way[2].0 && 0 <= a.0 + b.0 - 2 * way[1].0 <= 1)
  {
  }

  ghost predicate RunsRight(way: seq<Point>) {
    && |way| >= 2
    && way[0].0 + 60 <= way[|way| - 1].0
    && forall i :: 0 < i < |way| - 1 ==> way[0].0 < way[i].0 < way[|way| - 1].0
  }

  lemma {:induction false} LiftedMember(flows: seq<Flow>, host: map<Id, Id>, main: set<Id>, i: nat)
    requires i < |flows| && LiftedSource(flows[i], host) in main && flows[i].target in main
    ensures (LiftedSource(flows[i], host), flows[i].target) in LiftedArcs(flows, host, main)
    decreases |flows|
  {
    if i < |flows| - 1 { LiftedMember(flows[..|flows| - 1], host, main, i); }
  }

  /** An edge from a node free of cycles goes at least one layer up. */
  lemma FlowRaisesLayer(layerOf: map<Id, nat>, visited: set<Id>, arcs: Arcs, main: set<Id>, u: Id, v: Id)
    requires IsFlowLayering(layerOf, visited, arcs, main) && Within(arcs, main) && (u, v) in arcs
    requires !DependsOnCycle(arcs, u)
    ensures u in layerOf && v in layerOf && layerOf[u] < layerOf[v]
  {
    hide DependsOnCycle, IsLongest, HasSource, Before;
    if v in visited {
      FreeHasSource(arcs, main, u);
      ArcLengthensChain(arcs, u, v, layerOf[u], layerOf[v]);
    }
  }

  /**
   Every drawn edge into a non-boundary node whose source (or source's host) does not depend
   on a cycle runs from left to right by at least 60 px, and its bend lies strictly between
   its ends.
   */
  lemma EdgesRunRight(nodes: Dict<Id, Shape>, hosts: Dict<Id, Id>, layerOf: map<Id, nat>, columns: seq<seq<Id>>, incoming: map<Id, seq<Id>>, base: real,
                      visited: set<Id>, flows: seq<Flow>, i: nat)
    requires IsLaidOut(nodes, hosts, layerOf, columns, incoming, base)
    requires i < |flows| && IsAnchored(nodes.at, hosts.at, flows[i].source) && flows[i].target in layerOf
    requires var arcs := LiftedArcs(flows, hosts.at, layerOf.Keys);
      && IsFlowLayering(layerOf, visited, arcs, layerOf.Keys)
      && !DependsOnCycle(arcs, LiftedSource(flows[i], hosts.at))
    ensures flows[i].target in nodes.at
    ensures RunsRight(Waypoints(LeavesAt(nodes.at[flows[i].source]), EntersAt(nodes.at[flows[i].target])))
  {
    var arcs := LiftedArcs(flows, hosts.at, layerOf.Keys);
    var a, t := LiftedSource(flows[i], hosts.at), flows[i].target;
    LiftedWithin(flows, hosts.at, layerOf.Keys);
    LiftedMember(flows, hosts.at, layerOf.Keys, i);
    FlowRaisesLayer(layerOf, visited, arcs, layerOf.Keys, a, t);
    hide DependsOnCycle, HasSource, Before, IsFlowLayering, Within, LiftedArcs, Waypoints, RunsRight, LeavesAt, EntersAt;
    var s := flows[i].source;
    if s in hosts.at { HungHangs(nodes.at, hosts.keys, hosts.at, s); }
    hide AllHung;
    RunsRightBetween(nodes.at[s], nodes.at[a], layerOf[a], s != a, nodes.at[t], layerOf[t]);
  }

  lemma RunsRightBetween(s: Shape, a: Shape, m: nat, hung: bool, t: Shape, n: nat)
    requires if hung then s.kind == TagBoundaryEvent && Hangs(s, a) else s == a
    requires a.cx == BASE_X + m as real * X_SPACING && t.cx == BASE_X + n as real * X_SPACING && m < n
    ensures RunsRight(Waypoints(LeavesAt(s), EntersAt(t)))
  {
    var left := 180 + 160 * n - Width(t.kind) / 2;
    assert t.cx - t.HalfWidth() == left as real;
    TruncWhole(left);
    assert a.cx + X_SPACING <= t.cx;
    assert LeavesAt(s).0 + 60 <= left;
  }

  /** In an acyclic process this holds of every drawn edge into a non-boundary node. */
  lemma AcyclicEdgesRunRight(nodes: Dict<Id, Shape>, hosts: Dict<Id, Id>, layerOf: map<Id, nat>, columns: seq<seq<Id>>, incoming: map<Id, seq<Id>>, base: real,
                             visited: set<Id>, flows: seq<Flow>, i: nat)
    requires IsLaidOut(nodes, hosts, layerOf, columns, incoming, base)
    requires i < |flows| && IsAnchored(nodes.at, hosts.at, flows[i].source) && flows[i].target in layerOf
    requires var arcs := LiftedArcs(flows, hosts.at, layerOf.Keys);
      IsFlowLayering(layerOf, visited, arcs, layerOf.Keys) && Acyclic(arcs)
    ensures flows[i].target in nodes.at
    ensures RunsRight(Waypoints(LeavesAt(nodes.at[flows[i].source]), EntersAt(nodes.at[flows[i].target])))
  {
    var arcs := LiftedArcs(flows, hosts.at, layerOf.Keys);
    AcyclicIsFree(arcs);
    hide DependsOnCycle, HasSource, Before, Within, LiftedArcs, Waypoints, RunsRight, LeavesAt, EntersAt, IsLaidOut, IsFlowLayering;
    EdgesRunRight(nodes, hosts, layerOf, columns, incoming, base, visited, flows, i);
  }
}
