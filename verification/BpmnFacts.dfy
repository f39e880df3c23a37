/**
 Flow nodes are conserved: the parsed nodes, over all scopes, are the flow-node
 elements of the document, one for one and in order.
 */
module BpmnFacts {
  import opened Collections
  import opened Xml
  import opened BpmnModel
  import opened BpmnHoist
  import opened BpmnParser
  import opened BpmnSays

  // ----- conservation

  /** The flow-node elements of a scope and, in place, those of the subprocesses among them. */
  function FlowElements(kids: seq<Node>): seq<Node> {
    if kids == [] then []
    else
      var n := |kids| - 1;
      FlowElements(kids[..n]) +
      if !IsFlowElement(kids[n]) then []
      else [kids[n]] + if KindOf(kids[n].tag).value == SubProcess then FlowElements(kids[n].kids) else []
  }

  /** What an element says of its node. */
  function ElementHead(e: Node): Head {
    HeadOf(e, if IsFlowElement(e) then KindOf(e.tag).value else Task)
  }

  function ElementHeads(elements: seq<Node>): seq<Head> {
    seq(|elements|, i requires 0 <= i < |elements| => ElementHead(elements[i]))
  }

  function Heads(nodes: seq<FlowNode>): seq<Head> {
    seq(|nodes|, i requires 0 <= i < |nodes| => nodes[i].head)
  }

  /** Two lists of nodes that agree in everything but defaults, references and handlers. */
  ghost predicate SameShape(a: seq<FlowNode>, b: seq<FlowNode>)
    decreases a
  {
    |a| == |b| && forall i :: 0 <= i < |a| ==> SameNode(a[i], b[i])
  }

  ghost predicate SameNode(a: FlowNode, b: FlowNode)
    decreases a
  {
    && a.head == b.head
    && a.dataInputAssociations == b.dataInputAssociations && a.dataOutputAssociations == b.dataOutputAssociations
    && match a.typeData
       case BoundaryData(attached, cancel, _) => b.typeData.BoundaryData? && b.typeData.attachedToRef == attached && b.typeData.cancelActivity == cancel
       case SubProcessData(triggered, transaction, adHoc, inner, flows) =>
         && b.typeData.SubProcessData? && b.typeData.triggeredByEvent == triggered && b.typeData.isTransaction == transaction && b.typeData.isAdHoc == adHoc
         && b.typeData.sequenceFlows == flows && SameShape(inner, b.typeData.flowNodes)
       case DefaultingGatewayData(_) => b.typeData.DefaultingGatewayData?
       case PlainData => b.typeData.PlainData?
  }

  lemma {:induction false} ShapeReflexive(a: seq<FlowNode>)
    ensures SameShape(a, a)
    decreases a, 1
  {
    forall i | 0 <= i < |a| ensures SameNode(a[i], a[i]) { NodeReflexive(a[i]); }
  }

  lemma {:induction false} NodeReflexive(a: FlowNode)
    ensures SameNode(a, a)
    decreases a, 0
  {
    if a.typeData.SubProcessData? { ShapeReflexive(a.typeData.flowNodes); }
  }

  lemma LinkedSameShape(nodes: seq<FlowNode>, defaults: map<string, string>)
    ensures SameShape(nodes, Linked(nodes, defaults))
  {
    hide SameNode, WithDefault, WithRefs;
    forall i | 0 <= i < |nodes| ensures SameNode(nodes[i], Linked(nodes, defaults)[i]) {
      var mid := EachWithDefault(nodes, defaults);
      LinkedNodeSame(nodes[i], defaults, mid);
    }
  }

  lemma LinkedNodeSame(node: FlowNode, defaults: map<string, string>, nodes: seq<FlowNode>)
    ensures SameNode(node, WithRefs(WithDefault(node, defaults), nodes))
  {
    hide AttachedTo;
    NodeReflexive(node);
  }

  lemma {:induction false} CompensatedSameShape(nodes: seq<FlowNode>, handlers: map<string, string>)
    ensures SameShape(nodes, CompensateAll(nodes, handlers))
    decreases nodes, 1
  {
    if nodes == [] {
    } else {
      var rest, last := nodes[..|nodes| - 1], nodes[|nodes| - 1];
      assert nodes == rest + [last];
      CompensatedSameShape(rest, handlers);
      CompensatedSame(last, handlers);
    }
  }

  lemma {:induction false} CompensatedSame(node: FlowNode, handlers: map<string, string>)
    ensures SameNode(node, Compensate(node, handlers))
    decreases node, 0
  {
    if node.typeData.SubProcessData? { CompensatedSameShape(node.typeData.flowNodes, handlers); }
  }

  /** Same shape, same nodes one by one. */
  lemma {:induction false} SameShapeSameHeads(a: seq<FlowNode>, b: seq<FlowNode>)
    requires SameShape(a, b)
    ensures Heads(Flatten(a)) == Heads(Flatten(b))
    decreases a
  {
    if a == [] {
    } else {
      var n := |a| - 1;
      SameShapeSameHeads(a[..n], b[..n]);
      assert SameNode(a[n], b[n]);
      if a[n].typeData.SubProcessData? {
        SameShapeSameHeads(a[n].typeData.flowNodes, b[n].typeData.flowNodes);
      }
      HeadsLast(a);
      HeadsLast(b);
    }
  }

  lemma HeadsLast(a: seq<FlowNode>)
    requires a != []
    ensures Heads(Flatten(a)) == Heads(Flatten(a[..|a| - 1])) + [a[|a| - 1].head] +
      if a[|a| - 1].typeData.SubProcessData? then Heads(Flatten(a[|a| - 1].typeData.flowNodes)) else []
  {
  }

  lemma FlattenLast(nodes: seq<FlowNode>, node: FlowNode)
    ensures Flatten(nodes + [node]) == Flatten(nodes) + [node] + if node.typeData.SubProcessData? then Flatten(node.typeData.flowNodes) else []
  {
    assert (nodes + [node])[..|nodes + [node]| - 1] == nodes;
  }

  lemma FlowElementsLast(kids: seq<Node>, kid: Node)
    ensures FlowElements(kids + [kid]) == FlowElements(kids) + ElementAndContent(kid)
    ensures FlowElements([]) == []
  {
    assert (kids + [kid])[..|kids + [kid]| - 1] == kids;
  }

  function ElementAndContent(kid: Node): seq<Node> {
    if !IsFlowElement(kid) then []
    else [kid] + if KindOf(kid.tag).value == SubProcess then FlowElements(kid.kids) else []
  }

  function NodeAndContent(node: FlowNode): seq<FlowNode> {
    [node] + if node.typeData.SubProcessData? then Flatten(node.typeData.flowNodes) else []
  }

  lemma FlattenMore(nodes: seq<FlowNode>, node: FlowNode)
    ensures Flatten(nodes + [node]) == Flatten(nodes) + NodeAndContent(node)
    ensures Flatten([]) == []
  {
    FlattenLast(nodes, node);
  }

  lemma HeadsConcat(a: seq<FlowNode>, b: seq<FlowNode>)
    ensures Heads(a + b) == Heads(a) + Heads(b)
  {
  }

  lemma ElementHeadsConcat(a: seq<Node>, b: seq<Node>)
    ensures ElementHeads(a + b) == ElementHeads(a) + ElementHeads(b)
  {
    hide ElementHead;
  }

  lemma {:induction false} ScopeConserves(kids: seq<Node>, count: nat)
    ensures Heads(Flatten(ScopeNodes(kids, count))) == ElementHeads(FlowElements(kids))
    decreases kids, 0
  {
    hide *;
    if kids == [] {
      NothingToConserve(count);
    } else {
      var rest, kid := kids[..|kids| - 1], kids[|kids| - 1];
      assert kids == rest + [kid];
      ScopeConserves(rest, count);
      ScopeNodesLast(rest, kid, count);
      FlowElementsLast(rest, kid);
      if IsFlowElement(kid) {
        FlowHasKind(kid);
        var node := FlowNodeOf(kid, KindOf(kid.tag).value, count + ScopeCount(rest));
        NodeConserves(kid, count + ScopeCount(rest));
        FlattenMore(ScopeNodes(rest, count), node);
        HeadsConcat(Flatten(ScopeNodes(rest, count)), NodeAndContent(node));
        ElementHeadsConcat(FlowElements(rest), ElementAndContent(kid));
      } else {
        NoElement(kid);
        CatNothing(FlowElements(rest));
        CatNothing(ScopeNodes(rest, count));
      }
    }
  }

  lemma CatNothing<T>(s: seq<T>)
    ensures s + [] == s
  {
  }

  lemma FlowHasKind(kid: Node)
    requires IsFlowElement(kid)
    ensures kid.Elem? && KindOf(kid.tag).Some?
  {
  }

  lemma NoElement(kid: Node)
    requires !IsFlowElement(kid)
    ensures ElementAndContent(kid) == []
  {
  }

  lemma NothingToConserve(count: nat)
    ensures Heads(Flatten(ScopeNodes([], count))) == ElementHeads(FlowElements([]))
  {
  }

  lemma ContentOfKind(node: Node, kind: FlowNodeKind, count: nat)
    requires node.Elem?
    ensures TypeDataOf(node, kind, count).SubProcessData? <==> kind == SubProcess
    ensures TypeDataOf(node, kind, count).BoundaryData? <==> kind == BoundaryEvent
    ensures kind == SubProcess ==>
      && TypeDataOf(node, kind, count).flowNodes == Linked(ScopeNodes(node.kids, count), DefaultsOf(node.kids))
      && TypeDataOf(node, kind, count).sequenceFlows == EachMarked(FlowsOf(node.kids), DefaultsOf(node.kids))
  {
    hide ScopeNodes, DefaultsOf, EachMarked, Linked, FlowsOf;
  }

  lemma {:induction false} NodeConserves(kid: Node, count: nat)
    requires IsFlowElement(kid)
    ensures Heads(NodeAndContent(FlowNodeOf(kid, KindOf(kid.tag).value, count))) == ElementHeads(ElementAndContent(kid))
    decreases kid, 1
  {
    hide HeadOf, ScopeNodes, FlowElements, Flatten, DefaultsOf, EachMarked, Linked, TypeDataOf;
    var kind := KindOf(kid.tag).value;
    var node := FlowNodeOf(kid, kind, count);
    assert node.head == ElementHead(kid);
    ContentOfKind(kid, kind, count + AssociationCount(kid.kids));
    if kind == SubProcess {
      var inner := ScopeNodes(kid.kids, count + AssociationCount(kid.kids));
      ScopeConserves(kid.kids, count + AssociationCount(kid.kids));
      LinkedSameShape(inner, DefaultsOf(kid.kids));
      SameShapeSameHeads(inner, Linked(inner, DefaultsOf(kid.kids)));
      HeadsConcat([node], Flatten(node.typeData.flowNodes));
      ElementHeadsConcat([kid], FlowElements(kid.kids));
    }
  }

  /**
   The nodes of the parsed process, flattened over all scopes, are one-to-one and in order
   with the flow-node elements that have only subprocesses between them and the process,
   and each carries what its element says.
   */
  lemma FlowNodesConserved(process: Node, count: nat)
    ensures var nodes, elements := Flatten(ProcessOf(process, count).flowNodes), FlowElements(Children(process));
      |nodes| == |elements| && forall i :: 0 <= i < |nodes| ==> SaysHead(nodes[i].head, elements[i])
  {
    ProcessConserves(process, count);
    hide HeadOf, Flatten, FlowElements, SaysHead, IsFlowElement, ProcessOf;
    var nodes, elements := Flatten(ProcessOf(process, count).flowNodes), FlowElements(Children(process));
    assert |Heads(nodes)| == |ElementHeads(elements)|;
    FlowElementsAreFlow(Children(process));
    forall i | 0 <= i < |nodes| ensures SaysHead(nodes[i].head, elements[i]) {
      assert Heads(nodes)[i] == ElementHeads(elements)[i];
      HeadSays(elements[i]);
    }
  }

  lemma {:induction false} FlowElementsAreFlow(kids: seq<Node>)
    ensures forall i :: 0 <= i < |FlowElements(kids)| ==> IsFlowElement(FlowElements(kids)[i])
    decreases kids
  {
    hide IsFlowElement, KindOf;
    if kids == [] {
    } else {
      var n := |kids| - 1;
      FlowElementsAreFlow(kids[..n]);
      if IsFlowElement(kids[n]) {
        FlowHasKind(kids[n]);
        FlowElementsAreFlow(kids[n].kids);
      }
    }
  }

  lemma ProcessConserves(process: Node, count: nat)
    ensures Heads(Flatten(ProcessOf(process, count).flowNodes)) == ElementHeads(FlowElements(Children(process)))
  {
    var kids := Children(process);
    var nodes := ScopeNodes(kids, count);
    var handlers := HandlersOf(AssociationsIn(kids));
    hide HeadOf, ScopeNodes, CompensateAll, Linked, Flatten, FlowElements, SameShape, LanesIn;
    ScopeConserves(kids, count);
    CompensatedSameShape(nodes, handlers);
    SameShapeSameHeads(nodes, CompensateAll(nodes, handlers));
    LinkedSameShape(CompensateAll(nodes, handlers), DefaultsOf(kids));
    SameShapeSameHeads(CompensateAll(nodes, handlers), Linked(CompensateAll(nodes, handlers), DefaultsOf(kids)));
  }
}
