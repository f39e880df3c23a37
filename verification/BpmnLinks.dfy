/**
 The two linking passes that need an argument of their own: boundary references
 invert attachment, and compensation handlers come from the last association and
 touch nothing else. At the end, what a whole parsed process promises.
 */
module BpmnLinks {
  import opened Collections
  import opened Xml
  import opened BpmnModel
  import opened BpmnHoist
  import opened BpmnParser
  import opened BpmnSays
  import opened BpmnScopes

  // ----- boundary references

  ghost predicate DistinctIds(nodes: seq<FlowNode>) {
    forall i, j :: 0 <= i < j < |nodes| ==> nodes[i].head.id != nodes[j].head.id
  }

  /** `at` lists, last first, where the events attached to the host stand. */
  ghost predicate ListsAttached(at: seq<nat>, nodes: seq<FlowNode>, host: string) {
    && (forall k, l :: 0 <= k < l < |at| ==> at[l] < at[k])
    && (forall i :: 0 <= i < |nodes| ==> (i in at <==> IsAttached(nodes[i], host)))
    && (forall k :: 0 <= k < |at| ==> at[k] < |nodes|)
  }

  /** The references of a host are the ids of the events attached to it, in reverse document order. */
  lemma {:induction false} AttachedInReverse(nodes: seq<FlowNode>, host: string) returns (at: seq<nat>)
    ensures ListsAttached(at, nodes, host)
    ensures |at| == |AttachedTo(nodes, host)|
    ensures forall k :: 0 <= k < |at| ==> at[k] < |nodes| && AttachedTo(nodes, host)[k] == nodes[at[k]].head.id
  {
    hide IsAttached;
    if nodes == [] {
      at := [];
    } else {
      var rest, last := nodes[..|nodes| - 1], nodes[|nodes| - 1];
      at := AttachedInReverse(rest, host);
      if IsAttached(last, host) {
        at := [|nodes| - 1] + at;
      }
      forall i | 0 <= i < |nodes| ensures i in at <==> IsAttached(nodes[i], host) {
        if i < |rest| { assert rest[i] == nodes[i]; }
      }
    }
  }

  /** With distinct ids, an event is listed once at each node it names as host and never elsewhere. */
  ghost predicate RefsInvertAttachment(nodes: seq<FlowNode>) {
    forall h, e :: 0 <= h < |nodes| && 0 <= e < |nodes| ==>
      multiset(nodes[h].boundaryEventRefs)[nodes[e].head.id] == if IsAttached(nodes[e], nodes[h].head.id) then 1 else 0
  }

  lemma RefsInvert(nodes: seq<FlowNode>)
    requires DistinctIds(nodes)
    requires forall i :: 0 <= i < |nodes| ==> nodes[i].boundaryEventRefs == AttachedTo(nodes, nodes[i].head.id)
    ensures RefsInvertAttachment(nodes)
  {
    hide AttachedTo, IsAttached;
    forall h, e | 0 <= h < |nodes| && 0 <= e < |nodes|
      ensures multiset(nodes[h].boundaryEventRefs)[nodes[e].head.id] == if IsAttached(nodes[e], nodes[h].head.id) then 1 else 0
    {
      AttachedOnce(nodes, nodes[h].head.id, e);
    }
  }

  lemma AttachedOnce(nodes: seq<FlowNode>, host: string, e: nat)
    requires DistinctIds(nodes) && e < |nodes|
    ensures multiset(AttachedTo(nodes, host))[nodes[e].head.id] == if IsAttached(nodes[e], host) then 1 else 0
  {
    hide AttachedTo, IsAttached;
    var refs := AttachedTo(nodes, host);
    var at := AttachedInReverse(nodes, host);
    assert Distinct(refs);
    DistinctIffOnce(refs);
    if IsAttached(nodes[e], host) {
      assert e in at;
      var k :| 0 <= k < |at| && at[k] == e;
      assert refs[k] in refs;
    }
  }

  // ----- compensation handlers

  /** The association that has both ends and this source. */
  predicate NamesSource(a: Association, id: string) {
    a.sourceRef == Some(id) && a.targetRef.Some?
  }

  /** The target of the last association, in document order, with both ends and this source. */
  ghost predicate IsHandler(associations: seq<Association>, id: string, handler: Option<string>) {
    match handler
    case None => forall i :: 0 <= i < |associations| ==> !NamesSource(associations[i], id)
    case Some(target) => exists i: nat :: LastNaming(associations, i, id) && associations[i].targetRef == Some(target)
  }

  ghost predicate LastNaming(associations: seq<Association>, i: nat, id: string) {
    i < |associations| && NamesSource(associations[i], id) && forall j :: i < j < |associations| ==> !NamesSource(associations[j], id)
  }

  function HandlerFor(handlers: map<string, string>, id: string): Option<string> {
    if id in handlers then Some(handlers[id]) else None
  }

  lemma {:induction false} LastAssociationHandles(associations: seq<Association>, id: string)
    ensures IsHandler(associations, id, HandlerFor(HandlersOf(associations), id))
  {
    if associations == [] {
    } else {
      var n := |associations| - 1;
      var rest := associations[..n];
      LastAssociationHandles(rest, id);
      if NamesSource(associations[n], id) {
        assert LastNaming(associations, n, id);
      } else if HandlerFor(HandlersOf(rest), id).Some? {
        var i: nat :| LastNaming(rest, i, id) && rest[i].targetRef == HandlerFor(HandlersOf(rest), id);
        assert LastNaming(associations, i, id);
      }
    }
  }

  /** The association element has both ends and this source. */
  ghost predicate LeadsFrom(e: Node, id: string) {
    GetAttr(e, AttrSourceRef) == Some(id) && GetAttr(e, AttrTargetRef).Some?
  }

  /** The same of the document: the `targetRef` of the last association element that has both ends and this `sourceRef`. */
  ghost predicate IsDocumentHandler(elements: seq<Node>, id: string, handler: Option<string>) {
    match handler
    case None => forall i :: 0 <= i < |elements| ==> !LeadsFrom(elements[i], id)
    case Some(target) => exists i: nat :: LastLeading(elements, i, id) && GetAttr(elements[i], AttrTargetRef) == Some(target)
  }

  ghost predicate LastLeading(elements: seq<Node>, i: nat, id: string) {
    i < |elements| && LeadsFrom(elements[i], id) && forall j :: i < j < |elements| ==> !LeadsFrom(elements[j], id)
  }

  lemma HandlerInDocument(kids: seq<Node>, id: string, handler: Option<string>)
    requires IsHandler(AssociationsIn(kids), id, handler)
    ensures IsDocumentHandler(AssociationElements(kids), id, handler)
  {
    hide GetAttr, AssociationsIn, AssociationElements, AttrOrEmpty, HasTag;
    AssociationsSay(kids);
    var associations, elements := AssociationsIn(kids), AssociationElements(kids);
    forall i | 0 <= i < |elements| ensures LeadsFrom(elements[i], id) <==> NamesSource(associations[i], id) {
      assert SaysAssociation(associations[i], elements[i]);
    }
    if handler.Some? {
      var i: nat :| LastNaming(associations, i, id) && associations[i].targetRef == handler;
      assert LastLeading(elements, i, id) && SaysAssociation(associations[i], elements[i]);
    }
  }

  /** The node with no handler anywhere in it. */
  function Unhandled(node: FlowNode): FlowNode
    decreases node, 1
  {
    match node.typeData
    case BoundaryData(attachedTo, cancel, _) => node.(typeData := BoundaryData(attachedTo, cancel, None))
    case SubProcessData(triggered, transaction, adHoc, inner, flows) =>
      node.(typeData := SubProcessData(triggered, transaction, adHoc, UnhandledAll(inner), flows))
    case _ => node
  }

  function UnhandledAll(nodes: seq<FlowNode>): seq<FlowNode>
    decreases nodes, 0
  {
    if nodes == [] then [] else UnhandledAll(nodes[..|nodes| - 1]) + [Unhandled(nodes[|nodes| - 1])]
  }

  lemma UnhandledLast(nodes: seq<FlowNode>, node: FlowNode)
    ensures UnhandledAll(nodes + [node]) == UnhandledAll(nodes) + [Unhandled(node)]
    ensures UnhandledAll([]) == []
  {
    assert (nodes + [node])[..|nodes + [node]| - 1] == nodes;
  }

  lemma {:induction false} UnhandledAt(nodes: seq<FlowNode>)
    ensures |UnhandledAll(nodes)| == |nodes|
    ensures forall i :: 0 <= i < |nodes| ==> UnhandledAll(nodes)[i] == Unhandled(nodes[i])
  {
    hide Unhandled;
    if nodes == [] {
    } else {
      UnhandledAt(nodes[..|nodes| - 1]);
    }
  }

  /** The pass changes nothing but handlers. */
  lemma {:induction false} OnlyHandlersChange(nodes: seq<FlowNode>, handlers: map<string, string>)
    ensures UnhandledAll(CompensateAll(nodes, handlers)) == UnhandledAll(nodes)
    decreases nodes, 1
  {
    hide CompensateAll, UnhandledAll, Compensate, Unhandled;
    Parser.CompensateLast([], [], handlers);
    if nodes == [] {
    } else {
      var rest, last := nodes[..|nodes| - 1], nodes[|nodes| - 1];
      assert nodes == rest + [last];
      OnlyHandlersChange(rest, handlers);
      OnlyHandlerChanges(last, handlers);
      Parser.CompensateLast(rest, [last], handlers);
      UnhandledLast(rest, last);
      UnhandledLast(CompensateAll(rest, handlers), Compensate(last, handlers));
    }
  }

  lemma {:induction false} OnlyHandlerChanges(node: FlowNode, handlers: map<string, string>)
    ensures Unhandled(Compensate(node, handlers)) == Unhandled(node)
    decreases node, 0
  {
    hide CompensateAll, UnhandledAll;
    if node.typeData.SubProcessData? { OnlyHandlersChange(node.typeData.flowNodes, handlers); }
  }

  /** Every boundary event, at any depth, has the handler the map gives its id. */
  ghost predicate Handled(node: FlowNode, handlers: map<string, string>)
    decreases node, 1
  {
    match node.typeData
    case BoundaryData(_, _, handler) => handler == HandlerFor(handlers, node.head.id)
    case SubProcessData(_, _, _, inner, _) => AllHandled(inner, handlers)
    case _ => true
  }

  ghost predicate AllHandled(nodes: seq<FlowNode>, handlers: map<string, string>)
    decreases nodes, 0
  {
    forall i :: 0 <= i < |nodes| ==> Handled(nodes[i], handlers)
  }

  lemma {:induction false} CompensateHandles(nodes: seq<FlowNode>, handlers: map<string, string>)
    requires UnhandledAll(nodes) == nodes
    ensures AllHandled(CompensateAll(nodes, handlers), handlers)
    decreases nodes, 1
  {
    hide CompensateAll, UnhandledAll, Compensate, Unhandled, Handled;
    Parser.CompensateLast([], [], handlers);
    if nodes == [] {
    } else {
      var rest, last := nodes[..|nodes| - 1], nodes[|nodes| - 1];
      assert nodes == rest + [last];
      UnhandledLast(rest, last);
      assert UnhandledAll(rest) == rest && Unhandled(last) == last by {
        UnhandledAt(rest);
        assert UnhandledAll(nodes)[..|rest|] == UnhandledAll(rest);
      }
      CompensateHandles(rest, handlers);
      CompensateHandlesOne(last, handlers);
      Parser.CompensateLast(rest, [last], handlers);
    }
  }

  lemma {:induction false} CompensateHandlesOne(node: FlowNode, handlers: map<string, string>)
    requires Unhandled(node) == node
    ensures Handled(Compensate(node, handlers), handlers)
    decreases node, 0
  {
    hide CompensateAll, UnhandledAll, AllHandled;
    if node.typeData.SubProcessData? { CompensateHandles(node.typeData.flowNodes, handlers); }
  }

  lemma {:induction false} HandledThroughout(nodes: seq<FlowNode>, handlers: map<string, string>)
    requires AllHandled(nodes, handlers)
    ensures forall node :: node in Flatten(nodes) && node.typeData.BoundaryData? ==>
      node.typeData.compensationHandlerId == HandlerFor(handlers, node.head.id)
    decreases nodes
  {
    hide HandlerFor;
    if nodes == [] {
    } else {
      var rest, last := nodes[..|nodes| - 1], nodes[|nodes| - 1];
      HandledThroughout(rest, handlers);
      assert Handled(last, handlers);
      if last.typeData.SubProcessData? { HandledThroughout(last.typeData.flowNodes, handlers); }
    }
  }

  // ----- handlers and the other passes do not meet

  lemma LinkedHandled(nodes: seq<FlowNode>, defaults: map<string, string>, handlers: map<string, string>)
    requires AllHandled(nodes, handlers)
    ensures AllHandled(Linked(nodes, defaults), handlers)
  {
    hide AttachedTo, HandlerFor;
    var linked := Linked(nodes, defaults);
    forall i | 0 <= i < |linked| ensures Handled(linked[i], handlers) {
      assert Handled(nodes[i], handlers);
    }
  }

  lemma UnhandledLinked(nodes: seq<FlowNode>, defaults: map<string, string>)
    ensures UnhandledAll(Linked(nodes, defaults)) == Linked(UnhandledAll(nodes), defaults)
  {
    hide Linked, UnhandledAll, Unhandled;
    var linked := Linked(nodes, defaults);
    var bare := UnhandledAll(nodes);
    UnhandledAt(nodes);
    UnhandledAt(linked);
    LinkedLength(nodes, defaults);
    LinkedLength(bare, defaults);
    forall i | 0 <= i < |nodes| ensures UnhandledAll(linked)[i] == Linked(bare, defaults)[i] {
      UnhandledLinkedAt(nodes, defaults, i);
    }
  }

  lemma UnhandledLinkedAt(nodes: seq<FlowNode>, defaults: map<string, string>, i: nat)
    requires i < |nodes|
    ensures |UnhandledAll(nodes)| == |nodes|
    ensures Unhandled(Linked(nodes, defaults)[i]) == Linked(UnhandledAll(nodes), defaults)[i]
  {
    hide UnhandledAll, AttachedTo;
    UnhandledAt(nodes);
    var bare := UnhandledAll(nodes);
    var host := nodes[i].head.id;
    SameAttached(EachWithDefault(nodes, defaults), EachWithDefault(bare, defaults), host);
  }

  lemma {:induction false} RawUnhandled(kids: seq<Node>, count: nat)
    ensures UnhandledAll(ScopeNodes(kids, count)) == ScopeNodes(kids, count)
    decreases kids, 1
  {
    hide ScopeNodes, UnhandledAll, FlowNodeOf, ScopeCount, Unhandled;
    NothingInScope(count);
    if kids == [] {
      UnhandledAt([]);
    } else {
      var rest, kid := kids[..|kids| - 1], kids[|kids| - 1];
      assert kids == rest + [kid];
      RawUnhandled(rest, count);
      ScopeNodesLast(rest, kid, count);
      if IsFlowElement(kid) {
        RawNodeUnhandled(kid, KindOf(kid.tag).value, count + ScopeCount(rest));
        UnhandledLast(ScopeNodes(rest, count), FlowNodeOf(kid, KindOf(kid.tag).value, count + ScopeCount(rest)));
      } else {
        assert ScopeNodes(kids, count) == ScopeNodes(rest, count);
      }
    }
  }

  lemma {:induction false} RawNodeUnhandled(kid: Node, kind: FlowNodeKind, count: nat)
    requires kid.Elem? && KindOf(kid.tag) == Some(kind)
    ensures Unhandled(FlowNodeOf(kid, kind, count)) == FlowNodeOf(kid, kind, count)
    decreases kid, 0
  {
    hide ScopeNodes, UnhandledAll, FlowNodeOf, AssociationCount, HeadOf, DataAssociations, TypeDataOf, DefaultsOf, EachMarked, FlowsOf, Linked;
    var inner := count + AssociationCount(kid.kids);
    Parser.FlowNodeMeans(kid, kind, count);
    TypeDataMeans(kid, kind, inner);
    if kind == SubProcess {
      RawUnhandled(kid.kids, inner);
      UnhandledLinked(ScopeNodes(kid.kids, inner), DefaultsOf(kid.kids));
    }
  }

  // ----- the whole process

  /**
   Every boundary event of the process, at any depth, has as compensation handler the
   `targetRef` of the last association element of the process, in document order, that has
   both ends and names it as `sourceRef`, and none where there is no such element. With the
   handlers left out, the model is the one the other passes alone give.
   */
  lemma ProcessHandlers(process: Node, count: nat)
    ensures var p := ProcessOf(process, count);
      && (forall node :: node in Flatten(p.flowNodes) && node.typeData.BoundaryData? ==>
            && IsHandler(p.associations, node.head.id, node.typeData.compensationHandlerId)
            && IsDocumentHandler(AssociationElements(Children(process)), node.head.id, node.typeData.compensationHandlerId))
      && UnhandledAll(p.flowNodes) == Linked(ScopeNodes(Children(process), count), DefaultsOf(Children(process)))
  {
    hide ScopeNodes, DefaultsOf, CompensateAll, Linked, UnhandledAll, HandlersOf, AllHandled, Flatten, FlowsOf, LanesIn, AssociationsIn, AssociationElements, IsHandler, IsDocumentHandler;
    var kids := Children(process);
    var raw, defaults, handlers := ScopeNodes(kids, count), DefaultsOf(kids), HandlersOf(AssociationsIn(kids));
    var nodes := ProcessOf(process, count).flowNodes;
    RawUnhandled(kids, count);
    CompensateHandles(raw, handlers);
    LinkedHandled(CompensateAll(raw, handlers), defaults, handlers);
    HandledThroughout(nodes, handlers);
    OnlyHandlersChange(raw, handlers);
    UnhandledLinked(CompensateAll(raw, handlers), defaults);
    forall node | node in Flatten(nodes) && node.typeData.BoundaryData?
      ensures IsHandler(AssociationsIn(kids), node.head.id, node.typeData.compensationHandlerId)
      ensures IsDocumentHandler(AssociationElements(kids), node.head.id, node.typeData.compensationHandlerId)
    {
      LastAssociationHandles(AssociationsIn(kids), node.head.id);
      HandlerInDocument(kids, node.head.id, node.typeData.compensationHandlerId);
    }
  }

  ghost predicate SaysProcess(p: Process, e: Node) {
    && Some(p.id) == (if GetAttr(e, AttrId).Some? then GetAttr(e, AttrId) else Some(""))
    && p.name == GetAttr(e, AttrName)
    && (p.isExecutable <==> GetAttr(e, AttrIsExecutable) != Some("false"))
  }

  /**
   In every scope of the process, nodes and flows stand one for one and in order for their
   elements, a flow is default when a flow node of that same scope names it, a gateway's
   default is the one it names, and references are exactly the events attached. A process
   is executable unless it says that it is not.
   */
  lemma ProcessFaithful(process: Node, count: nat)
    ensures var p := ProcessOf(process, count);
      && Faithful(Children(process), UnhandledAll(p.flowNodes), p.sequenceFlows)
      && SaysProcess(p, process)
  {
    hide Faithful, Linked, ScopeNodes, DefaultsOf, UnhandledAll, EachMarked, FlowsOf, CompensateAll, LanesIn, AssociationsIn, GetAttr;
    ProcessHandlers(process, count);
    ScopeFaithful(Children(process), count);
  }

  /** In such a scope the nodes attached to a host are those whose element is a boundary event that names it. */
  lemma AttachedInDocument(kids: seq<Node>, nodes: seq<FlowNode>, flows: seq<SequenceFlow>, i: nat, host: string)
    requires Faithful(kids, nodes, flows) && i < |nodes|
    ensures |FlowKids(kids)| == |nodes|
    ensures IsAttached(nodes[i], host) <==> HasTag(FlowKids(kids)[i], TagBoundaryEvent) && GetAttr(FlowKids(kids)[i], AttrAttachedToRef) == Some(host)
  {
    hide FlowKids, SaysFlow, AttachedTo, FaithfulNode, GetAttr, IsAttached, IsFlowElement, FaithfulContent;
    FlowKidsAreKids(kids);
    var kid := FlowKids(kids)[i];
    assert kid in FlowKids(kids);
    NodeAttached(kids, kid, nodes[i], host);
  }

  lemma NodeAttached(kids: seq<Node>, kid: Node, node: FlowNode, host: string)
    requires kid in kids && FaithfulNode(kids, kid, node)
    ensures IsAttached(node, host) <==> HasTag(kid, TagBoundaryEvent) && GetAttr(kid, AttrAttachedToRef) == Some(host)
  {
    hide GetAttr, FaithfulContent, NamedUnder, DataInReverse, ListsInReverse, IsLastText, KindOf;
    KindsAre(kid.tag, BoundaryEvent);
    KindsAre(kid.tag, node.head.kind);
  }

  /** With distinct ids, references invert attachment in every scope that is faithful. */
  lemma FaithfulInverts(kids: seq<Node>, nodes: seq<FlowNode>, flows: seq<SequenceFlow>)
    requires Faithful(kids, nodes, flows) && DistinctIds(nodes)
    ensures RefsInvertAttachment(nodes)
  {
    hide FaithfulNode, AttachedTo, RefsInvertAttachment;
    RefsInvert(nodes);
  }
}
