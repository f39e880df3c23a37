/**
 The linking passes, seen from the document: which flow is default, which boundary
 events a node lists, and which handler a boundary event gets, in every scope of a
 parsed process.
 */
module BpmnScopes {
  import opened Collections
  import opened Xml
  import opened BpmnModel
  import opened BpmnParser
  import opened BpmnSays

  // ----- default flows

  /** The `i`-th child is a flow node with this id that names a default flow, and no later one with the id does. */
  ghost predicate Names(kids: seq<Node>, i: nat, id: string, flow: string) {
    && i < |kids| && IsFlowElement(kids[i]) && AttrOrEmpty(kids[i], AttrId) == id && GetAttr(kids[i], AttrDefault) == Some(flow)
    && forall j :: i < j < |kids| ==> !NamesAny(kids[j], id)
  }

  predicate NamesAny(kid: Node, id: string) {
    IsFlowElement(kid) && AttrOrEmpty(kid, AttrId) == id && GetAttr(kid, AttrDefault).Some?
  }

  /** The flow last named under an id. */
  ghost predicate NamedUnder(kids: seq<Node>, id: string, flow: string) {
    exists i :: Names(kids, i, id, flow)
  }

  /** Some flow node directly in the scope names the flow, and keeps the last word under its id. */
  ghost predicate IsNamed(kids: seq<Node>, flow: string) {
    exists id :: NamedUnder(kids, id, flow)
  }

  lemma NamesBefore(kids: seq<Node>, kid: Node, i: nat, id: string, flow: string)
    ensures i < |kids| ==> (Names(kids + [kid], i, id, flow) <==> Names(kids, i, id, flow) && !NamesAny(kid, id))
    ensures Names(kids + [kid], |kids|, id, flow) <==> NamesAny(kid, id) && GetAttr(kid, AttrDefault) == Some(flow)
    ensures i > |kids| ==> !Names(kids + [kid], i, id, flow)
  {
    hide GetAttr, AttrOrEmpty, IsFlowElement;
    var all := kids + [kid];
    if i < |kids| {
      assert all[i] == kids[i];
      assert forall j :: i < j < |kids| ==> all[j] == kids[j];
      assert all[|kids|] == kid;
      assert Names(kids, i, id, flow) && !NamesAny(kid, id) ==> forall j :: i < j < |all| ==> !NamesAny(all[j], id);
    }
  }

  lemma NamedUnderLast(kids: seq<Node>, kid: Node, id: string, flow: string)
    ensures NamedUnder(kids + [kid], id, flow) <==> if NamesAny(kid, id) then GetAttr(kid, AttrDefault) == Some(flow) else NamedUnder(kids, id, flow)
    ensures !NamedUnder([], id, flow)
  {
    hide GetAttr, AttrOrEmpty, IsFlowElement, Names;
    forall i: nat
      ensures Names(kids + [kid], i, id, flow) ==> i <= |kids|
      ensures Names(kids, i, id, flow) ==> i < |kids|
      ensures Names(kids + [kid], i, id, flow) ==>
        if i == |kids| then NamesAny(kid, id) && GetAttr(kid, AttrDefault) == Some(flow) else Names(kids, i, id, flow) && !NamesAny(kid, id)
    {
      NamesBefore(kids, kid, i, id, flow);
      NamesWithin(kids, i, id, flow);
      NamesWithin(kids + [kid], i, id, flow);
    }
    NoNames(id, flow);
    NamesBefore(kids, kid, 0, id, flow);
    if NamedUnder(kids, id, flow) && !NamesAny(kid, id) {
      var i :| Names(kids, i, id, flow);
      NamesBefore(kids, kid, i, id, flow);
      assert Names(kids + [kid], i, id, flow);
    }
  }

  lemma {:induction false} DefaultsAreNames(kids: seq<Node>, id: string, flow: string)
    ensures id in DefaultsOf(kids) && DefaultsOf(kids)[id] == flow <==> NamedUnder(kids, id, flow)
  {
    hide DefaultsOf, GetAttr, AttrOrEmpty, IsFlowElement, NamedUnder;
    if kids == [] {
      NothingInScope(0);
      NamedUnderLast([], Text(""), id, flow);
    } else {
      var rest, kid := kids[..|kids| - 1], kids[|kids| - 1];
      assert kids == rest + [kid];
      DefaultsAreNames(rest, id, flow);
      ScopeFlowsLast(rest, kid);
      NamedUnderLast(rest, kid, id, flow);
    }
  }

  lemma NamesWithin(kids: seq<Node>, i: nat, id: string, flow: string)
    ensures Names(kids, i, id, flow) ==> i < |kids|
  {
  }

  lemma NoNames(id: string, flow: string)
    ensures forall i :: !Names([], i, id, flow)
  {
  }

  lemma DefaultValues(kids: seq<Node>, flow: string)
    ensures flow in DefaultsOf(kids).Values <==> IsNamed(kids, flow)
  {
    hide DefaultsOf, NamedUnder;
    if flow in DefaultsOf(kids).Values {
      var id :| id in DefaultsOf(kids) && DefaultsOf(kids)[id] == flow;
      DefaultsAreNames(kids, id, flow);
    }
    if id :| NamedUnder(kids, id, flow) {
      DefaultsAreNames(kids, id, flow);
      assert DefaultsOf(kids)[id] == flow;
    }
  }

  /** No two flow nodes directly in the scope share an id. */
  ghost predicate DistinctNodeIds(kids: seq<Node>) {
    forall i, j :: 0 <= i < j < |kids| && IsFlowElement(kids[i]) && IsFlowElement(kids[j]) ==>
      AttrOrEmpty(kids[i], AttrId) != AttrOrEmpty(kids[j], AttrId)
  }

  /** With distinct ids a flow is named exactly when some flow node of the scope has it as its default. */
  lemma NamedWhenDistinct(kids: seq<Node>, flow: string)
    requires DistinctNodeIds(kids)
    ensures IsNamed(kids, flow) <==> exists i :: 0 <= i < |kids| && IsFlowElement(kids[i]) && GetAttr(kids[i], AttrDefault) == Some(flow)
  {
    hide GetAttr, AttrOrEmpty, IsFlowElement;
    if i :| 0 <= i < |kids| && IsFlowElement(kids[i]) && GetAttr(kids[i], AttrDefault) == Some(flow) {
      assert Names(kids, i, AttrOrEmpty(kids[i], AttrId), flow);
      assert NamedUnder(kids, AttrOrEmpty(kids[i], AttrId), flow);
    }
  }

  // ----- faithful scopes

  function FlowKids(kids: seq<Node>): seq<Node> {
    if kids == [] then []
    else FlowKids(kids[..|kids| - 1]) + if IsFlowElement(kids[|kids| - 1]) then [kids[|kids| - 1]] else []
  }

  function SequenceKids(kids: seq<Node>): seq<Node> {
    if kids == [] then []
    else SequenceKids(kids[..|kids| - 1]) + if HasTag(kids[|kids| - 1], TagSequenceFlow) then [kids[|kids| - 1]] else []
  }

  /**
   The nodes and flows of a scope say what its elements say: one for one and in order;
   defaults as named in the scope itself; boundary references exactly those attached;
   and so on inwards.
   */
  ghost predicate Faithful(kids: seq<Node>, nodes: seq<FlowNode>, flows: seq<SequenceFlow>)
    decreases kids, 0
  {
    && |nodes| == |FlowKids(kids)|
    && |flows| == |SequenceKids(kids)|
    && (forall i :: 0 <= i < |flows| ==> SaysFlow(flows[i], SequenceKids(kids)[i]) && flows[i].isDefault == IsNamed(kids, flows[i].id))
    && (forall i :: 0 <= i < |nodes| ==> nodes[i].boundaryEventRefs == AttachedTo(nodes, nodes[i].head.id))
    && (forall i :: 0 <= i < |nodes| && FlowKids(kids)[i] in kids ==> FaithfulNode(kids, FlowKids(kids)[i], nodes[i]))
  }

  ghost predicate FaithfulNode(kids: seq<Node>, kid: Node, node: FlowNode)
    requires kid in kids
    decreases kids, 0, kid
  {
    && IsFlowElement(kid) && SaysHead(node.head, kid)
    && DataInReverse(node.dataInputAssociations, kid.kids, Dia) && DataInReverse(node.dataOutputAssociations, kid.kids, Doa)
    && match node.head.kind
       case BoundaryEvent => node.typeData.BoundaryData?
         && node.typeData.attachedToRef == GetAttr(kid, AttrAttachedToRef) && node.typeData.cancelActivity == (GetAttr(kid, AttrCancelActivity) != Some("false"))
       case SubProcess => node.typeData.SubProcessData? && FaithfulContent(kid, node)
       case ExclusiveGateway => GatewayDefault(kids, node.head.id, node.typeData)
       case InclusiveGateway => GatewayDefault(kids, node.head.id, node.typeData)
       case _ => node.typeData == PlainData
  }

  ghost predicate FaithfulContent(kid: Node, node: FlowNode)
    requires kid.Elem? && node.typeData.SubProcessData?
    decreases kid
  {
    && node.typeData.triggeredByEvent == (GetAttr(kid, AttrTriggeredByEvent) == Some("true"))
    && node.typeData.isTransaction == (kid.tag == TagTransaction) && node.typeData.isAdHoc == (kid.tag == TagAdHocSubProcess)
    && Faithful(kid.kids, node.typeData.flowNodes, node.typeData.sequenceFlows)
  }

  /** A gateway's default flow is the one last named under its id. */
  ghost predicate GatewayDefault(kids: seq<Node>, id: string, data: TypeData) {
    && data.DefaultingGatewayData?
    && forall flow :: data.defaultFlowRef == Some(flow) <==> NamedUnder(kids, id, flow)
  }

  // ----- the parser is faithful

  /** The node stands for the element, before any pass. */
  ghost predicate IsRaw(kid: Node, node: FlowNode) {
    IsFlowElement(kid) && exists count: nat :: node == FlowNodeOf(kid, KindOf(kid.tag).value, count)
  }

  lemma FlowKidsLast(kids: seq<Node>, kid: Node)
    ensures FlowKids(kids + [kid]) == FlowKids(kids) + if IsFlowElement(kid) then [kid] else []
    ensures SequenceKids(kids + [kid]) == SequenceKids(kids) + if HasTag(kid, TagSequenceFlow) then [kid] else []
    ensures FlowKids([]) == SequenceKids([]) == []
  {
    assert (kids + [kid])[..|kids + [kid]| - 1] == kids;
  }

  lemma {:induction false} FlowKidsAreKids(kids: seq<Node>)
    ensures forall k :: k in FlowKids(kids) ==> k in kids && IsFlowElement(k)
  {
    hide IsFlowElement;
    if kids == [] {
    } else {
      FlowKidsAreKids(kids[..|kids| - 1]);
    }
  }

  lemma {:induction false} ScopeIsRaw(kids: seq<Node>, count: nat)
    ensures |ScopeNodes(kids, count)| == |FlowKids(kids)|
    ensures forall i :: 0 <= i < |FlowKids(kids)| ==> IsRaw(FlowKids(kids)[i], ScopeNodes(kids, count)[i])
  {
    hide ScopeNodes, FlowKids, FlowNodeOf, ScopeCount, IsFlowElement, IsRaw;
    NothingInScope(count);
    FlowKidsLast([], Text(""));
    if kids == [] {
    } else {
      var rest, kid := kids[..|kids| - 1], kids[|kids| - 1];
      assert kids == rest + [kid];
      ScopeIsRaw(rest, count);
      ScopeNodesLast(rest, kid, count);
      FlowKidsLast(rest, kid);
      if IsFlowElement(kid) {
        RawNode(kid, count + ScopeCount(rest));
      }
    }
  }

  lemma RawNode(kid: Node, count: nat)
    requires IsFlowElement(kid)
    ensures kid.Elem? && KindOf(kid.tag).Some? && IsRaw(kid, FlowNodeOf(kid, KindOf(kid.tag).value, count))
  {
    hide FlowNodeOf;
  }

  lemma {:induction false} FlowsAreRaw(kids: seq<Node>)
    ensures |FlowsOf(kids)| == |SequenceKids(kids)|
    ensures forall i :: 0 <= i < |FlowsOf(kids)| ==> FlowsOf(kids)[i] == SequenceFlowOf(SequenceKids(kids)[i])
  {
    hide SequenceFlowOf;
    if kids == [] {
    } else {
      FlowsAreRaw(kids[..|kids| - 1]);
    }
  }

  lemma {:induction false} SequenceKidsAreFlows(kids: seq<Node>)
    ensures forall i :: 0 <= i < |SequenceKids(kids)| ==> HasTag(SequenceKids(kids)[i], TagSequenceFlow)
  {
    hide HasTag;
    if kids == [] {
    } else {
      SequenceKidsAreFlows(kids[..|kids| - 1]);
    }
  }

  lemma FlowsFaithful(kids: seq<Node>)
    ensures var flows := EachMarked(FlowsOf(kids), DefaultsOf(kids));
      && |flows| == |SequenceKids(kids)|
      && forall i :: 0 <= i < |flows| ==> SaysFlow(flows[i], SequenceKids(kids)[i]) && flows[i].isDefault == IsNamed(kids, flows[i].id)
  {
    hide FlowsOf, DefaultsOf, SequenceKids, IsNamed, SequenceFlowOf;
    FlowsAreRaw(kids);
    SequenceKidsAreFlows(kids);
    var flows := EachMarked(FlowsOf(kids), DefaultsOf(kids));
    forall i | 0 <= i < |flows| ensures SaysFlow(flows[i], SequenceKids(kids)[i]) && flows[i].isDefault == IsNamed(kids, flows[i].id) {
      FlowSays(SequenceKids(kids)[i]);
      DefaultValues(kids, flows[i].id);
    }
  }

  /** A pass that keeps ids and attachment keeps the references. */
  lemma {:induction false} SameAttached(a: seq<FlowNode>, b: seq<FlowNode>, host: string)
    requires |a| == |b| && forall i :: 0 <= i < |a| ==> a[i].head.id == b[i].head.id && IsAttached(a[i], host) == IsAttached(b[i], host)
    ensures AttachedTo(a, host) == AttachedTo(b, host)
  {
    if a == [] {
    } else {
      SameAttached(a[..|a| - 1], b[..|b| - 1], host);
    }
  }

  lemma LinkedAt(nodes: seq<FlowNode>, defaults: map<string, string>, i: nat)
    requires i < |nodes| && nodes[i].boundaryEventRefs == []
    ensures |Linked(nodes, defaults)| == |nodes|
    ensures Linked(nodes, defaults)[i] == WithDefault(nodes[i], defaults).(boundaryEventRefs := AttachedTo(nodes, nodes[i].head.id))
  {
    hide AttachedTo;
    SameAttached(nodes, EachWithDefault(nodes, defaults), nodes[i].head.id);
  }

  lemma LinkedAttached(nodes: seq<FlowNode>, defaults: map<string, string>, host: string)
    ensures AttachedTo(Linked(nodes, defaults), host) == AttachedTo(nodes, host)
  {
    hide AttachedTo;
    SameAttached(nodes, Linked(nodes, defaults), host);
  }

  lemma RawIsPlain(kid: Node, node: FlowNode)
    requires IsRaw(kid, node)
    ensures node.boundaryEventRefs == [] && node.head == HeadOf(kid, KindOf(kid.tag).value)
  {
    hide HeadOf, TypeDataOf, DataAssociations;
  }

  lemma {:induction false} ScopeFaithful(kids: seq<Node>, count: nat)
    ensures Faithful(kids, Linked(ScopeNodes(kids, count), DefaultsOf(kids)), EachMarked(FlowsOf(kids), DefaultsOf(kids)))
    decreases kids, 1
  {
    hide ScopeNodes, FlowsOf, DefaultsOf, Linked, EachMarked, FaithfulNode, IsRaw, AttachedTo, FlowKids, SequenceKids, IsNamed, WithDefault, HeadOf, SequenceFlowOf;
    var raw, defaults := ScopeNodes(kids, count), DefaultsOf(kids);
    var nodes := Linked(raw, defaults);
    ScopeIsRaw(kids, count);
    FlowsFaithful(kids);
    FlowKidsAreKids(kids);
    LinkedLength(raw, defaults);
    forall i | 0 <= i < |nodes|
      ensures nodes[i].boundaryEventRefs == AttachedTo(nodes, nodes[i].head.id)
      ensures FlowKids(kids)[i] in kids && FaithfulNode(kids, FlowKids(kids)[i], nodes[i])
    {
      var kid := FlowKids(kids)[i];
      assert IsRaw(kid, raw[i]) && kid in FlowKids(kids);
      RawIsPlain(kid, raw[i]);
      LinkedAt(raw, defaults, i);
      LinkedAttached(raw, defaults, raw[i].head.id);
      DefaultKeepsHead(raw[i], defaults);
      NodeFaithful(kids, kid, raw[i], AttachedTo(raw, raw[i].head.id));
    }
  }

  lemma LinkedLength(nodes: seq<FlowNode>, defaults: map<string, string>)
    ensures |Linked(nodes, defaults)| == |nodes|
  {
  }

  lemma DefaultKeepsHead(node: FlowNode, defaults: map<string, string>)
    ensures WithDefault(node, defaults).head == node.head
  {
  }

  lemma {:induction false} NodeFaithful(kids: seq<Node>, kid: Node, raw: FlowNode, refs: seq<string>)
    requires kid in kids && IsRaw(kid, raw)
    ensures FaithfulNode(kids, kid, WithDefault(raw, DefaultsOf(kids)).(boundaryEventRefs := refs))
    decreases kids, 0
  {
    hide HeadOf, SaysHead, DataAssociations, DataInReverse, Reverse, DefaultsOf, AssociationCount, Faithful, NamedUnder, TypeDataOf, FlowNodeOf, Linked, EachMarked, GatewayDefault;
    var kind := KindOf(kid.tag).value;
    var count: nat :| raw == FlowNodeOf(kid, kind, count);
    Parser.FlowNodeMeans(kid, kind, count);
    HeadKind(kid, kind);
    HeadSays(kid);
    AssociationsInReverse(kid.kids, Dia, count);
    AssociationsInReverse(kid.kids, Doa, count);
    var inner := count + AssociationCount(kid.kids);
    assert raw.typeData == TypeDataOf(kid, kind, inner);
    TypeDataMeans(kid, kind, inner);
    if kind == SubProcess {
      ScopeFaithful(kid.kids, inner);
    } else if kind == ExclusiveGateway || kind == InclusiveGateway {
      GatewayLooksUp(kids, raw);
    }
  }

  lemma HeadKind(kid: Node, kind: FlowNodeKind)
    ensures HeadOf(kid, kind).kind == kind
  {
  }

  lemma GatewayLooksUp(kids: seq<Node>, raw: FlowNode)
    requires raw.typeData == DefaultingGatewayData(None)
    ensures GatewayDefault(kids, raw.head.id, WithDefault(raw, DefaultsOf(kids)).typeData)
  {
    hide DefaultsOf, NamedUnder;
    forall flow ensures raw.head.id in DefaultsOf(kids) && DefaultsOf(kids)[raw.head.id] == flow <==> NamedUnder(kids, raw.head.id, flow) {
      DefaultsAreNames(kids, raw.head.id, flow);
    }
  }

  lemma TypeDataMeans(node: Node, kind: FlowNodeKind, count: nat)
    requires node.Elem?
    ensures var data := TypeDataOf(node, kind, count);
      match kind
      case BoundaryEvent => data == BoundaryData(GetAttr(node, AttrAttachedToRef), GetAttr(node, AttrCancelActivity) != Some("false"), None)
      case SubProcess =>
        data == SubProcessData(GetAttr(node, AttrTriggeredByEvent) == Some("true"), node.tag == TagTransaction, node.tag == TagAdHocSubProcess,
                               Linked(ScopeNodes(node.kids, count), DefaultsOf(node.kids)), EachMarked(FlowsOf(node.kids), DefaultsOf(node.kids)))
      case ExclusiveGateway => data == DefaultingGatewayData(None)
      case InclusiveGateway => data == DefaultingGatewayData(None)
      case _ => data == PlainData
  {
    hide GetAttr, Linked, ScopeNodes, DefaultsOf, EachMarked, FlowsOf;
  }
}
