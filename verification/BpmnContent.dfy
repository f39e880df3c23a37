/**
 What the layout script reads from a process element (scripts/bpmn_add_di.py,
 `Process.extract`), said in terms of tags and attributes.
 */
module BpmnContent {
  import opened Collections
  import opened Chains
  import opened Xml
  import opened BpmnLayers
  import opened BpmnGeometry
  import opened BpmnLayout
  import opened BpmnLanes
  import opened BpmnExtract

  /** The attribute is there and not empty. */
  predicate Has(e: Node, name: Attr) {
    GetAttr(e, name).Some? && GetAttr(e, name).value != ""
  }

  function Where(kids: seq<Node>, test: Node -> bool): seq<Node> {
    if kids == [] then []
    else Where(kids[..|kids| - 1], test) + if test(kids[|kids| - 1]) then [kids[|kids| - 1]] else []
  }

  // ----- nodes and attachments

  /** The kinds of flow nodes that are laid out: five events, ten activities, five gateways. */
  ghost predicate IsNodeTag(tag: Tag) {
    || tag in {TagStartEvent, TagEndEvent, TagIntermediateCatchEvent, TagIntermediateThrowEvent, TagBoundaryEvent}
    || tag in {TagTask, TagUserTask, TagServiceTask, TagManualTask, TagScriptTask, TagBusinessRuleTask, TagSendTask, TagReceiveTask}
    || tag in {TagCallActivity, TagSubProcess}
    || tag in {TagExclusiveGateway, TagParallelGateway, TagInclusiveGateway, TagEventBasedGateway, TagComplexGateway}
  }

  ghost predicate IsNode(e: Node, id: Id) {
    e.Elem? && IsNodeTag(e.tag) && Has(e, AttrId) && GetAttr(e, AttrId) == Some(id.name)
  }

  /** The node is a boundary event attached to this host. */
  ghost predicate IsAttachedTo(e: Node, id: Id, host: Id) {
    IsNode(e, id) && e.tag == TagBoundaryEvent && Has(e, AttrAttachedToRef) && GetAttr(e, AttrAttachedToRef) == Some(host.name)
  }

  lemma TagsAre(tag: Tag)
    ensures IsNodeTag(tag) <==> IsEventKind(tag) || IsTaskKind(tag) || IsGatewayKind(tag)
  {
  }

  lemma NodeIdMeans(e: Node, id: Id)
    ensures NodeId(e) == Some(id) <==> IsNode(e, id)
  {
    if e.Elem? { TagsAre(e.tag); }
    hide IsNodeTag, IsEventKind, IsTaskKind, IsGatewayKind;
  }

  lemma HostIdMeans(e: Node, id: Id, host: Id)
    ensures NodeId(e) == Some(id) && HostId(e) == Some(host) <==> IsAttachedTo(e, id, host)
  {
    NodeIdMeans(e, id);
    hide NodeId, IsNode;
  }

  ghost predicate IsLastNode(kids: seq<Node>, i: nat, id: Id) {
    i < |kids| && IsNode(kids[i], id) && forall j :: i < j < |kids| ==> !IsNode(kids[j], id)
  }

  ghost predicate IsLastAttached(kids: seq<Node>, i: nat, id: Id, host: Id) {
    i < |kids| && IsAttachedTo(kids[i], id, host) && forall j, h :: i < j < |kids| ==> !IsAttachedTo(kids[j], id, h)
  }

  /** The last attachment of the id is to this host. */
  ghost predicate LeadsTo(kids: seq<Node>, id: Id, host: Id) {
    exists i: nat :: IsLastAttached(kids, i, id, host)
  }

  lemma {:induction false} LastNodeMeans(kids: seq<Node>, id: Id)
    ensures forall i: nat :: IsLastNode(kids, i, id) ==> LastNode(kids, id) == Some(kids[i])
    ensures LastNode(kids, id).Some? <==> exists i :: 0 <= i < |kids| && IsNode(kids[i], id)
  {
    hide NodeId, IsNode;
    if kids == [] {
    } else {
      var n := |kids| - 1;
      LastNodeMeans(kids[..n], id);
      NodeIdMeans(kids[n], id);
      forall i: nat | IsLastNode(kids, i, id) ensures LastNode(kids, id) == Some(kids[i]) {
        if i < n { assert IsLastNode(kids[..n], i, id); }
      }
      if i :| 0 <= i < |kids| && IsNode(kids[i], id) {
        if i < n { assert IsNode(kids[..n][i], id); }
      }
      if LastNode(kids[..n], id).Some? {
        var i :| 0 <= i < n && IsNode(kids[..n][i], id);
        assert IsNode(kids[i], id);
      }
    }
  }

  lemma {:induction false} LastHostMeans(kids: seq<Node>, i: nat, id: Id, host: Id)
    requires IsLastAttached(kids, i, id, host)
    ensures LastHost(kids, id) == Some(host)
    decreases |kids|
  {
    hide NodeId, HostId, IsAttachedTo;
    var n := |kids| - 1;
    if i == n {
      HostIdMeans(kids[n], id, host);
    } else {
      assert IsLastAttached(kids[..n], i, id, host);
      LastHostMeans(kids[..n], i, id, host);
      if NodeId(kids[n]) == Some(id) && HostId(kids[n]).Some? { HostIdMeans(kids[n], id, HostId(kids[n]).value); }
    }
  }

  lemma {:induction false} HostExists(kids: seq<Node>, id: Id)
    requires LastHost(kids, id).Some?
    ensures exists i: nat :: IsLastAttached(kids, i, id, LastHost(kids, id).value)
  {
    hide NodeId, HostId, IsAttachedTo;
    var n := |kids| - 1;
    var host := LastHost(kids, id).value;
    if NodeId(kids[n]) == Some(id) && HostId(kids[n]).Some? {
      HostIdMeans(kids[n], id, host);
      assert IsLastAttached(kids, n, id, host);
    } else {
      HostExists(kids[..n], id);
      var i: nat :| IsLastAttached(kids[..n], i, id, host);
      forall h ensures !IsAttachedTo(kids[n], id, h) { HostIdMeans(kids[n], id, h); }
      assert kids[..n][i] == kids[i];
      forall j, h | i < j < |kids| ensures !IsAttachedTo(kids[j], id, h) {
        if j < n { assert kids[..n][j] == kids[j]; }
      }
      assert IsLastAttached(kids, i, id, host);
    }
  }

  /**
   The nodes read are the flow-node elements with an id; of those with one id the last counts,
   and it stands at the origin. Its id is attached to what the last boundary event with that id
   and a host names.
   */
  lemma NodesWritten(kids: seq<Node>, id: Id)
    ensures var c := WithChildren(EMPTY, kids);
      && (id in c.nodes.at <==> exists i :: 0 <= i < |kids| && IsNode(kids[i], id))
      && (forall i: nat :: IsLastNode(kids, i, id) ==> id in c.nodes.at && kids[i].Elem? && c.nodes.at[id] == Shape(kids[i].tag, 0.0, 0.0))
      && (forall host :: id in c.hosts.at && c.hosts.at[id] == host <==> LeadsTo(kids, id, host))
  {
    hide WithChildren, LastNode, LastHost, IsNode, IsLastAttached;
    var c := WithChildren(EMPTY, kids);
    NodesAreRead(kids, id);
    LastNodeMeans(kids, id);
    forall i: nat | IsLastNode(kids, i, id) ensures kids[i].Elem? { IsNodeIsElement(kids[i], id); }
    forall host ensures id in c.hosts.at && c.hosts.at[id] == host <==> LeadsTo(kids, id, host) {
      if i: nat :| IsLastAttached(kids, i, id, host) { LastHostMeans(kids, i, id, host); }
      if LastHost(kids, id).Some? { HostExists(kids, id); }
    }
  }

  lemma IsNodeIsElement(e: Node, id: Id)
    requires IsNode(e, id)
    ensures e.Elem?
  {
  }

  // ----- the order of nodes and attachments

  /** A boundary event with this id that names a host. */
  ghost predicate IsAttached(e: Node, id: Id) {
    IsNode(e, id) && e.tag == TagBoundaryEvent && Has(e, AttrAttachedToRef)
  }

  ghost predicate IsFirst(kids: seq<Node>, i: nat, id: Id, test: (Node, Id) -> bool) {
    i < |kids| && test(kids[i], id) && forall j :: 0 <= j < i ==> !test(kids[j], id)
  }

  /** The ids come in the order in which each first passes the test. */
  ghost predicate ListsFirst(at: seq<nat>, ids: seq<Id>, kids: seq<Node>, test: (Node, Id) -> bool) {
    && |at| == |ids| && (forall i, j :: 0 <= i < j < |at| ==> at[i] < at[j])
    && forall i :: 0 <= i < |at| ==> IsFirst(kids, at[i], ids[i], test)
  }

  lemma FirstMore(at: seq<nat>, ids: seq<Id>, rest: seq<Node>, last: Node, id: Id, test: (Node, Id) -> bool)
    requires ListsFirst(at, ids, rest, test)
    ensures ListsFirst(at, ids, rest + [last], test)
    ensures test(last, id) && (forall j :: 0 <= j < |rest| ==> !test(rest[j], id)) ==> ListsFirst(at + [|rest|], ids + [id], rest + [last], test)
  {
    var kids := rest + [last];
    forall i | 0 <= i < |at| ensures IsFirst(kids, at[i], ids[i], test) {
      assert IsFirst(rest, at[i], ids[i], test);
    }
    if test(last, id) && forall j :: 0 <= j < |rest| ==> !test(rest[j], id) {
      assert IsFirst(kids, |rest|, id, test);
    }
  }

  lemma {:induction false} NeverAttached(kids: seq<Node>, id: Id)
    requires LastHost(kids, id) == None
    ensures forall j :: 0 <= j < |kids| ==> !IsAttached(kids[j], id)
  {
    hide NodeId, HostId, IsAttached;
    if kids == [] {
    } else {
      var n := |kids| - 1;
      NeverAttached(kids[..n], id);
      if IsAttached(kids[n], id) { AttachedHasHost(kids[n], id); }
      forall j | 0 <= j < |kids| ensures !IsAttached(kids[j], id) {
        if j < n { assert kids[..n][j] == kids[j]; }
      }
    }
  }

  lemma AttachedHasHost(e: Node, id: Id)
    ensures IsAttached(e, id) <==> NodeId(e) == Some(id) && HostId(e).Some?
  {
    NodeIdMeans(e, id);
    hide NodeId, IsNode;
  }

  /** Nodes, and attachments, are kept in the order in which each id first has one; giving an id again moves nothing. */
  lemma {:induction false} OrderWritten(kids: seq<Node>) returns (nodes: seq<nat>, hosts: seq<nat>)
    ensures ListsFirst(nodes, WithChildren(EMPTY, kids).nodes.keys, kids, IsNode)
    ensures ListsFirst(hosts, WithChildren(EMPTY, kids).hosts.keys, kids, IsAttached)
  {
    hide NodeId, HostId, FlowOf, DataRefOf, LanesOf, WithChild, ListsFirst, IsNode, IsAttached, LastHost, LastNode;
    if kids == [] {
      nodes, hosts := [], [];
      NoneFirst();
    } else {
      var rest, kid := kids[..|kids| - 1], kids[|kids| - 1];
      assert kids == rest + [kid];
      nodes, hosts := OrderWritten(rest);
      var c := WithChildren(EMPTY, rest);
      WithChildMeans(c, kid);
      var id := if NodeId(kid).Some? then NodeId(kid).value else Id("");
      FirstMore(nodes, c.nodes.keys, rest, kid, id, IsNode);
      FirstMore(hosts, c.hosts.keys, rest, kid, id, IsAttached);
      NodesWritten(rest, id);
      NodesAreRead(rest, id);
      NodeIdMeans(kid, id);
      AttachedHasHost(kid, id);
      if NodeId(kid).Some? && id !in c.nodes.at { nodes := nodes + [|rest|]; }
      if NodeId(kid).Some? && HostId(kid).Some? && id !in c.hosts.at {
        NeverAttached(rest, id);
        hosts := hosts + [|rest|];
      }
    }
  }

  lemma NoneFirst()
    ensures ListsFirst([], [], [], IsNode) && ListsFirst([], [], [], IsAttached)
  {
  }

  // ----- flows, data references and lanes

  predicate IsFullFlow(e: Node) {
    HasTag(e, TagSequenceFlow) && Has(e, AttrId) && Has(e, AttrSourceRef) && Has(e, AttrTargetRef)
  }

  ghost predicate SaysFlow(f: Flow, e: Node) {
    && IsFullFlow(e) && GetAttr(e, AttrId) == Some(f.id)
    && GetAttr(e, AttrSourceRef) == Some(f.source.name) && GetAttr(e, AttrTargetRef) == Some(f.target.name)
  }

  predicate IsDataReference(e: Node) {
    (HasTag(e, TagDataObjectReference) || HasTag(e, TagDataStoreReference)) && Has(e, AttrId)
  }

  /** A data object is 36 px wide, a data store 50; both are 50 px high. */
  ghost predicate SaysReference(r: DataRef, e: Node) {
    && IsDataReference(e) && GetAttr(e, AttrId) == Some(r.id.name)
    && r.w == (if HasTag(e, TagDataObjectReference) then 36 else 50) && r.h == 50
  }

  predicate IsFullLane(e: Node) {
    HasTag(e, TagLane) && Has(e, AttrId)
  }

  /** The lanes with an id of all lane sets, in document order. */
  function LaneElements(kids: seq<Node>): seq<Node> {
    if kids == [] then []
    else
      var n := |kids| - 1;
      LaneElements(kids[..n]) + if HasTag(kids[n], TagLaneSet) then Where(kids[n].kids, IsFullLane) else []
  }

  ghost predicate FlowsSay(flows: seq<Flow>, elements: seq<Node>) {
    |flows| == |elements| && forall i :: 0 <= i < |flows| ==> SaysFlow(flows[i], elements[i])
  }

  ghost predicate ReferencesSay(refs: seq<DataRef>, elements: seq<Node>) {
    |refs| == |elements| && forall i :: 0 <= i < |refs| ==> SaysReference(refs[i], elements[i])
  }

  ghost predicate LanesSay(lanes: seq<Lane>, elements: seq<Node>) {
    |lanes| == |elements| && forall i :: 0 <= i < |lanes| ==> GetAttr(elements[i], AttrId) == Some(lanes[i].id.name)
  }

  lemma OneFlow(e: Node)
    ensures FlowsSay(FlowOf(e), if IsFullFlow(e) then [e] else [])
  {
  }

  lemma OneReference(e: Node)
    ensures ReferencesSay(DataRefOf(e), if IsDataReference(e) then [e] else [])
  {
  }

  lemma {:induction false} LanesOfSay(kids: seq<Node>)
    ensures LanesSay(LanesOf(kids), Where(kids, IsFullLane))
  {
    if kids == [] {
    } else {
      LanesOfSay(kids[..|kids| - 1]);
    }
  }

  lemma NodeIsNothingElse(e: Node)
    requires NodeId(e).Some?
    ensures !IsFullFlow(e) && !IsDataReference(e) && !HasTag(e, TagLaneSet)
  {
  }

  lemma SayMore(flows: seq<Flow>, f: seq<Node>, moreFlows: seq<Flow>, g: seq<Node>)
    requires FlowsSay(flows, f) && FlowsSay(moreFlows, g)
    ensures FlowsSay(flows + moreFlows, f + g)
  {
    hide SaysFlow;
  }

  lemma ReferencesMore(refs: seq<DataRef>, r: seq<Node>, more: seq<DataRef>, s: seq<Node>)
    requires ReferencesSay(refs, r) && ReferencesSay(more, s)
    ensures ReferencesSay(refs + more, r + s)
  {
    hide SaysReference;
  }

  lemma LanesMore(lanes: seq<Lane>, l: seq<Node>, more: seq<Lane>, m: seq<Node>)
    requires LanesSay(lanes, l) && LanesSay(more, m)
    ensures LanesSay(lanes + more, l + m)
  {
    hide GetAttr;
  }

  lemma NothingSaid()
    ensures FlowsSay([], []) && ReferencesSay([], []) && LanesSay([], [])
  {
  }

  /**
   Flows, data references and lanes are read one for one and in order: the sequence flows with
   an id and both ends, the references with an id, the lanes of lane sets with an id.
   */
  lemma {:induction false} RestWritten(kids: seq<Node>)
    ensures var c := WithChildren(EMPTY, kids);
      && FlowsSay(c.flows, Where(kids, IsFullFlow))
      && ReferencesSay(c.dataRefs, Where(kids, IsDataReference))
      && LanesSay(c.lanes, LaneElements(kids))
  {
    hide NodeId, HostId, FlowOf, DataRefOf, LanesOf, WithChild, Dict.Set, FlowsSay, ReferencesSay, LanesSay, IsFullFlow, IsDataReference, IsFullLane;
    NothingSaid();
    if kids == [] {
    } else {
      var rest, kid := kids[..|kids| - 1], kids[|kids| - 1];
      RestWritten(rest);
      var c := WithChildren(EMPTY, rest);
      WithChildMeans(c, kid);
      OneFlow(kid);
      OneReference(kid);
      if HasTag(kid, TagLaneSet) { LanesOfSay(kid.kids); }
      if NodeId(kid).Some? {
        NodeIsNothingElse(kid);
        CatNothing(Where(rest, IsFullFlow));
        CatNothing(Where(rest, IsDataReference));
        CatNothing(LaneElements(rest));
      } else {
        SayMore(c.flows, Where(rest, IsFullFlow), FlowOf(kid), if IsFullFlow(kid) then [kid] else []);
        ReferencesMore(c.dataRefs, Where(rest, IsDataReference), DataRefOf(kid), if IsDataReference(kid) then [kid] else []);
        LanesMore(c.lanes, LaneElements(rest), if HasTag(kid, TagLaneSet) then LanesOf(kid.kids) else [],
                  if HasTag(kid, TagLaneSet) then Where(kid.kids, IsFullLane) else []);
      }
    }
  }

  lemma CatNothing<T>(s: seq<T>)
    ensures s + [] == s
  {
  }
}
