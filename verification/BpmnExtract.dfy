/**
 What a process element holds for its layout (scripts/bpmn_add_di.py,
 `Process.extract`): nodes at the origin, flows, data references, lanes, and the
 hosts of attached boundary events.
 */
module BpmnExtract {
  import opened Collections
  import opened Chains
  import opened Xml
  import opened BpmnLayers
  import opened BpmnGeometry
  import opened BpmnLayout
  import opened BpmnLanes

  datatype Content = Content(nodes: Dict<Id, Shape>, flows: seq<Flow>, dataRefs: seq<DataRef>, lanes: seq<Lane>, hosts: Dict<Id, Id>)

  const EMPTY: Content := Content(Dict([], map[]), [], [], [], Dict([], map[]))

  predicate IsTaskKind(kind: Tag) {
    match kind
    case TagTask | TagUserTask | TagServiceTask | TagManualTask | TagScriptTask | TagBusinessRuleTask | TagSendTask | TagReceiveTask => true
    case TagCallActivity | TagSubProcess => true
    case _ => false
  }

  /** The id of a flow node that is laid out. */
  function NodeId(kid: Node): Option<Id> {
    if kid.Elem? && (IsEventKind(kid.tag) || IsTaskKind(kid.tag) || IsGatewayKind(kid.tag)) && AttrOrEmpty(kid, AttrId) != ""
    then Some(Id(AttrOrEmpty(kid, AttrId))) else None
  }

  function HostId(kid: Node): Option<Id> {
    if HasTag(kid, TagBoundaryEvent) && AttrOrEmpty(kid, AttrAttachedToRef) != "" then Some(Id(AttrOrEmpty(kid, AttrAttachedToRef))) else None
  }

  /** The lanes of a lane set that have an id. */
  function LanesOf(kids: seq<Node>): seq<Lane> {
    if kids == [] then []
    else
      var n := |kids| - 1;
      LanesOf(kids[..n]) +
      if HasTag(kids[n], TagLane) && AttrOrEmpty(kids[n], AttrId) != "" then [Lane(Id(AttrOrEmpty(kids[n], AttrId)), LaneBox(0, 0, 0, 0))] else []
  }

  function FlowOf(kid: Node): seq<Flow> {
    var id, source, target := AttrOrEmpty(kid, AttrId), AttrOrEmpty(kid, AttrSourceRef), AttrOrEmpty(kid, AttrTargetRef);
    if HasTag(kid, TagSequenceFlow) && id != "" && source != "" && target != "" then [Flow(id, Id(source), Id(target))] else []
  }

  function DataRefOf(kid: Node): seq<DataRef> {
    var id := AttrOrEmpty(kid, AttrId);
    if id == "" then []
    else if HasTag(kid, TagDataObjectReference) then [DataRef(Id(id), 36, 50, 0, 0)]
    else if HasTag(kid, TagDataStoreReference) then [DataRef(Id(id), 50, 50, 0, 0)]
    else []
  }

  /** The content after one more child. */
  function WithChild(c: Content, kid: Node): Content {
    match NodeId(kid)
    case Some(id) =>
      c.(nodes := c.nodes.Set(id, Shape(kid.tag, 0.0, 0.0)),
         hosts := if HostId(kid).Some? then c.hosts.Set(id, HostId(kid).value) else c.hosts)
    case None =>
      c.(flows := c.flows + FlowOf(kid), dataRefs := c.dataRefs + DataRefOf(kid),
         lanes := c.lanes + if HasTag(kid, TagLaneSet) then LanesOf(kid.kids) else [])
  }

  /** Either a node, and its host if it has one, or whatever else the child contributes. */
  lemma WithChildMeans(c: Content, kid: Node)
    ensures NodeId(kid).Some? ==> kid.Elem?
    ensures NodeId(kid).Some? ==>
      var id := NodeId(kid).value;
      WithChild(c, kid) == Content(c.nodes.Set(id, Shape(kid.tag, 0.0, 0.0)), c.flows, c.dataRefs, c.lanes,
                                   if HostId(kid).Some? then c.hosts.Set(id, HostId(kid).value) else c.hosts)
    ensures NodeId(kid).None? ==>
      WithChild(c, kid) == Content(c.nodes, c.flows + FlowOf(kid), c.dataRefs + DataRefOf(kid),
                                   c.lanes + if HasTag(kid, TagLaneSet) then LanesOf(kid.kids) else [], c.hosts)
  {
    hide HostId, FlowOf, DataRefOf, LanesOf, AttrOrEmpty, Dict.Set;
  }

  function WithChildren(c: Content, kids: seq<Node>): Content {
    if kids == [] then c else WithChild(WithChildren(c, kids[..|kids| - 1]), kids[|kids| - 1])
  }

  lemma ChildrenNext(c: Content, kids: seq<Node>, i: nat)
    requires i <= |kids|
    ensures WithChildren(c, kids[..0]) == c
    ensures i < |kids| ==> WithChildren(c, kids[..i + 1]) == WithChild(WithChildren(c, kids[..i]), kids[i])
  {
    if i < |kids| { assert kids[..i + 1][..i] == kids[..i]; }
  }

  method ReadLanes(kids: seq<Node>) returns (lanes: seq<Lane>)
    ensures lanes == LanesOf(kids)
  {
    lanes := [];
    for i := 0 to |kids|
      invariant lanes == LanesOf(kids[..i])
    {
      assert kids[..i + 1][..i] == kids[..i];
      if HasTag(kids[i], TagLane) && AttrOrEmpty(kids[i], AttrId) != "" {
        lanes := lanes + [Lane(Id(AttrOrEmpty(kids[i], AttrId)), LaneBox(0, 0, 0, 0))];
      }
    }
    assert kids[..|kids|] == kids;
  }

  // ----- what reading establishes

  /** Attachments are those of nodes of the process; data references have the sizes they are made with. */
  ghost predicate Sound(nodes: Dict<Id, Shape>, hosts: Dict<Id, Id>, refs: seq<DataRef>) {
    && nodes.Valid() && hosts.Valid() && hosts.at.Keys <= nodes.at.Keys
    && forall i :: 0 <= i < |refs| ==> 0 < refs[i].w <= 50 && refs[i].h == 50
  }

  ghost predicate AtOrigin(at: map<Id, Shape>) {
    forall v :: v in at ==> at[v].cx == 0.0 && at[v].cy == 0.0
  }

  /** The last flow node with an id: the one that is kept. */
  function LastNode(kids: seq<Node>, id: Id): Option<Node> {
    if kids == [] then None
    else
      var n := |kids| - 1;
      if NodeId(kids[n]) == Some(id) then Some(kids[n]) else LastNode(kids[..n], id)
  }

  /** The last host given to an id, by whatever node has it. */
  function LastHost(kids: seq<Node>, id: Id): Option<Id> {
    if kids == [] then None
    else
      var n := |kids| - 1;
      if NodeId(kids[n]) == Some(id) && HostId(kids[n]).Some? then HostId(kids[n]) else LastHost(kids[..n], id)
  }

  /** The nodes kept, and where their attachments lead. */
  lemma {:induction false} NodesAreRead(kids: seq<Node>, id: Id)
    ensures var c := WithChildren(EMPTY, kids);
      && (id in c.nodes.at <==> LastNode(kids, id).Some?)
      && (id in c.hosts.at <==> LastHost(kids, id).Some?)
      && (id in c.nodes.at ==> LastNode(kids, id).value.Elem? && c.nodes.at[id] == Shape(LastNode(kids, id).value.tag, 0.0, 0.0))
      && (id in c.hosts.at ==> id in c.nodes.at && Some(c.hosts.at[id]) == LastHost(kids, id))
  {
    hide NodeId, HostId, FlowOf, DataRefOf, LanesOf, WithChild;
    if kids == [] {
    } else {
      NodesAreRead(kids[..|kids| - 1], id);
      WithChildMeans(WithChildren(EMPTY, kids[..|kids| - 1]), kids[|kids| - 1]);
    }
  }

  /** What does not depend on ids: the dictionaries are in order, and data references have one of two sizes. */
  lemma {:induction false} ReadInOrder(kids: seq<Node>)
    ensures var c := WithChildren(EMPTY, kids);
      && c.nodes.Valid() && c.hosts.Valid()
      && forall i :: 0 <= i < |c.dataRefs| ==> 0 < c.dataRefs[i].w <= 50 && c.dataRefs[i].h == 50
  {
    hide NodeId, HostId, FlowOf, DataRefOf, LanesOf, WithChild, Dict.Set;
    if kids == [] {
    } else {
      var rest, kid := kids[..|kids| - 1], kids[|kids| - 1];
      ReadInOrder(rest);
      var c := WithChildren(EMPTY, rest);
      WithChildMeans(c, kid);
      if NodeId(kid).Some? {
        DictSetValid(c.nodes, NodeId(kid).value, Shape(kid.tag, 0.0, 0.0));
        if HostId(kid).Some? { DictSetValid(c.hosts, NodeId(kid).value, HostId(kid).value); }
      } else {
        DataRefMeans(kid);
      }
    }
  }

  lemma DataRefMeans(kid: Node)
    ensures forall i :: 0 <= i < |DataRefOf(kid)| ==> 0 < DataRefOf(kid)[i].w <= 50 && DataRefOf(kid)[i].h == 50
  {
    hide AttrOrEmpty;
  }

  /** Reading establishes what the layout relies on, and leaves every node at the origin. */
  lemma ReadIsSound(kids: seq<Node>)
    ensures var c := WithChildren(EMPTY, kids); Sound(c.nodes, c.hosts, c.dataRefs) && AtOrigin(c.nodes.at)
  {
    hide WithChildren, LastNode, LastHost;
    var c := WithChildren(EMPTY, kids);
    ReadInOrder(kids);
    forall id
      ensures id in c.nodes.at ==> c.nodes.at[id].cx == 0.0 && c.nodes.at[id].cy == 0.0
      ensures id in c.hosts.at ==> id in c.nodes.at
    {
      NodesAreRead(kids, id);
    }
  }

  ghost predicate EventsAttached(nodes: Dict<Id, Shape>, hosts: Dict<Id, Id>) {
    forall b :: b in hosts.at ==> b in nodes.at && nodes.at[b].kind == TagBoundaryEvent
  }

  /** No boundary event that is attached gives way to a node of another kind with its id. */
  ghost predicate AttachedStay(kids: seq<Node>) {
    forall id :: LastHost(kids, id).Some? ==>
      LastNode(kids, id).Some? && LastNode(kids, id).value.Elem? && LastNode(kids, id).value.tag == TagBoundaryEvent
  }

  /** All attached nodes are boundary events exactly then. */
  lemma EventsAttachedIff(kids: seq<Node>)
    ensures var c := WithChildren(EMPTY, kids); EventsAttached(c.nodes, c.hosts) <==> AttachedStay(kids)
  {
    hide WithChildren, LastNode, LastHost;
    var c := WithChildren(EMPTY, kids);
    forall id
      ensures id in c.hosts.at <==> LastHost(kids, id).Some?
      ensures id in c.hosts.at ==> id in c.nodes.at && LastNode(kids, id).Some? && LastNode(kids, id).value.Elem?
      ensures id in c.hosts.at ==> c.nodes.at[id].kind == LastNode(kids, id).value.tag
    {
      NodesAreRead(kids, id);
    }
  }

  /** No two laid-out flow nodes share an id. */
  ghost predicate DistinctNodes(kids: seq<Node>) {
    forall i, j :: 0 <= i < j < |kids| && NodeId(kids[i]).Some? && NodeId(kids[j]).Some? ==> NodeId(kids[i]) != NodeId(kids[j])
  }

  /** With distinct ids attached events stay what they are. */
  lemma DistinctStay(kids: seq<Node>)
    requires DistinctNodes(kids)
    ensures AttachedStay(kids)
  {
    hide NodeId, HostId, DistinctNodes;
    forall id | LastHost(kids, id).Some?
      ensures LastNode(kids, id).Some? && LastNode(kids, id).value.Elem? && LastNode(kids, id).value.tag == TagBoundaryEvent
    {
      AttachedStays(kids, id);
    }
  }

  lemma {:induction false} AttachedStays(kids: seq<Node>, id: Id)
    requires DistinctNodes(kids) && LastHost(kids, id).Some?
    ensures LastNode(kids, id).Some? && LastNode(kids, id).value.Elem? && LastNode(kids, id).value.tag == TagBoundaryEvent
    ensures exists i :: 0 <= i < |kids| && NodeId(kids[i]) == Some(id)
  {
    hide NodeId, HostId;
    var n := |kids| - 1;
    if NodeId(kids[n]) == Some(id) && HostId(kids[n]).Some? {
      AttachedIsBoundary(kids[n]);
    } else {
      AttachedStays(kids[..n], id);
      var i :| 0 <= i < n && NodeId(kids[..n][i]) == Some(id);
      assert NodeId(kids[i]) == Some(id);
    }
  }

  lemma AttachedIsBoundary(kid: Node)
    requires HostId(kid).Some?
    ensures kid.Elem? && kid.tag == TagBoundaryEvent
  {
  }
}
