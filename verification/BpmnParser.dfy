/**
 From element tree to process model (packages/js/sdk/src/bpmn/parser.ts,
 `parseProcess` and what it calls): the descent over flow nodes and subprocess
 scopes, with the counter for generated ids threaded through it, and the passes
 that link default flows, boundary events and compensation handlers.

 Every function here says what the method of the corresponding name computes.
 */
module BpmnParser {
  import opened Collections
  import opened Xml
  import opened BpmnModel
  import opened BpmnHoist

  // ----- one flow node

  /** The non-empty texts of the children with a tag. */
  function RefTexts(kids: seq<Node>, tag: Tag): seq<string> {
    if kids == [] then []
    else
      var n := |kids| - 1;
      RefTexts(kids[..n], tag) + if HasTag(kids[n], tag) && TextContent(kids[n]) != "" then [TextContent(kids[n])] else []
  }

  function Reverse<T>(s: seq<T>): seq<T> {
    if s == [] then [] else [s[|s| - 1]] + Reverse(s[..|s| - 1])
  }

  /** The last non-empty documentation. */
  function DocumentationOf(kids: seq<Node>): Option<string> {
    var texts := RefTexts(kids, TagDocumentation);
    if texts == [] then None else Some(texts[|texts| - 1])
  }

  function HeadOf(node: Node, kind: FlowNodeKind): Head {
    var kids := Children(node);
    Head(AttrOrEmpty(node, AttrId), GetAttr(node, AttrName), kind,
         Reverse(RefTexts(kids, TagIncoming)), Reverse(RefTexts(kids, TagOutgoing)),
         GetAttr(node, AttrIsForCompensation) == Some("true"), DocumentationOf(kids))
  }

  function DataAssociationOf(node: Node, prefix: Prefix, count: nat): DataAssociation {
    var kids := Children(node);
    DataAssociation(match GetAttr(node, AttrId) case Some(id) => Given(id) case None => Auto(prefix, count),
                    NonEmpty(ChildText(kids, TagSourceRef)), NonEmpty(ChildText(kids, TagTargetRef)), NonEmpty(ChildText(kids, TagTransformation)))
  }

  function PrefixOf(node: Node): Option<Prefix> {
    if HasTag(node, TagDataInputAssociation) then Some(Dia)
    else if HasTag(node, TagDataOutputAssociation) then Some(Doa)
    else None
  }

  /** How many data associations there are: each takes one number, whether it needs it or not. */
  function AssociationCount(kids: seq<Node>): nat {
    if kids == [] then 0
    else
      var n := |kids| - 1;
      AssociationCount(kids[..n]) + if PrefixOf(kids[n]).Some? then 1 else 0
  }

  /** The data associations of one direction, numbered from `count` on. */
  function DataAssociations(kids: seq<Node>, prefix: Prefix, count: nat): seq<DataAssociation> {
    if kids == [] then []
    else
      var n := |kids| - 1;
      DataAssociations(kids[..n], prefix, count) +
      if PrefixOf(kids[n]) == Some(prefix) then [DataAssociationOf(kids[n], prefix, count + AssociationCount(kids[..n]) + 1)] else []
  }

  function SequenceFlowOf(node: Node): SequenceFlow {
    SequenceFlow(AttrOrEmpty(node, AttrId), GetAttr(node, AttrName), AttrOrEmpty(node, AttrSourceRef), AttrOrEmpty(node, AttrTargetRef),
                 NonEmpty(ChildText(Children(node), TagConditionExpression)), false)
  }

  // ----- linking passes over one scope

  /** The default flow each node id names; a later node with the same id wins. */
  function DefaultsOf(kids: seq<Node>): map<string, string> {
    if kids == [] then map[]
    else
      var n := |kids| - 1;
      var before := DefaultsOf(kids[..n]);
      if IsFlowElement(kids[n]) && GetAttr(kids[n], AttrDefault).Some?
      then before[AttrOrEmpty(kids[n], AttrId) := GetAttr(kids[n], AttrDefault).value] else before
  }

  function WithDefault(node: FlowNode, defaults: map<string, string>): FlowNode {
    if node.head.id in defaults && node.typeData.DefaultingGatewayData?
    then node.(typeData := DefaultingGatewayData(Some(defaults[node.head.id]))) else node
  }

  function MarkDefault(flow: SequenceFlow, defaults: map<string, string>): SequenceFlow {
    if flow.id in defaults.Values then flow.(isDefault := true) else flow
  }

  /** The boundary events attached to a node, last first. */
  function AttachedTo(nodes: seq<FlowNode>, host: string): seq<string> {
    if nodes == [] then []
    else
      var n := |nodes| - 1;
      (if IsAttached(nodes[n], host) then [nodes[n].head.id] else []) + AttachedTo(nodes[..n], host)
  }

  predicate IsAttached(node: FlowNode, host: string) {
    node.typeData.BoundaryData? && node.typeData.attachedToRef == Some(host)
  }

  function WithRefs(node: FlowNode, nodes: seq<FlowNode>): FlowNode {
    var refs := AttachedTo(nodes, node.head.id);
    if refs == [] then node else node.(boundaryEventRefs := refs)
  }

  function EachWithDefault(nodes: seq<FlowNode>, defaults: map<string, string>): seq<FlowNode> {
    seq(|nodes|, i requires 0 <= i < |nodes| => WithDefault(nodes[i], defaults))
  }

  function EachMarked(flows: seq<SequenceFlow>, defaults: map<string, string>): seq<SequenceFlow> {
    seq(|flows|, i requires 0 <= i < |flows| => MarkDefault(flows[i], defaults))
  }

  function EachWithRefs(nodes: seq<FlowNode>): seq<FlowNode> {
    seq(|nodes|, i requires 0 <= i < |nodes| => WithRefs(nodes[i], nodes))
  }

  /** The nodes of a scope after both passes. */
  function Linked(nodes: seq<FlowNode>, defaults: map<string, string>): seq<FlowNode> {
    EachWithRefs(EachWithDefault(nodes, defaults))
  }

  // ----- scopes

  function FlowsOf(kids: seq<Node>): seq<SequenceFlow> {
    if kids == [] then []
    else
      var n := |kids| - 1;
      FlowsOf(kids[..n]) + if HasTag(kids[n], TagSequenceFlow) then [SequenceFlowOf(kids[n])] else []
  }

  /** How far a flow node advances the counter, its content included. */
  function NodeCount(node: Node): nat
    decreases node, 1
  {
    if node.Text? then 0
    else AssociationCount(node.kids) + if KindOf(node.tag) == Some(SubProcess) then ScopeCount(node.kids) else 0
  }

  function ContentCount(node: Node, kind: FlowNodeKind): nat
    decreases node, 0
  {
    if node.Elem? && kind == SubProcess then ScopeCount(node.kids) else 0
  }

  function ScopeCount(kids: seq<Node>): nat
    decreases kids, 0
  {
    if kids == [] then 0
    else
      var n := |kids| - 1;
      ScopeCount(kids[..n]) + if IsFlowElement(kids[n]) then NodeCount(kids[n]) else 0
  }

  /** A flow node parsed while the counter stands at `count`. */
  function FlowNodeOf(node: Node, kind: FlowNodeKind, count: nat): FlowNode
    decreases node, 1
  {
    var kids := Children(node);
    FlowNode(HeadOf(node, kind), TypeDataOf(node, kind, count + AssociationCount(kids)), [],
             Reverse(DataAssociations(kids, Dia, count)), Reverse(DataAssociations(kids, Doa, count)))
  }

  function TypeDataOf(node: Node, kind: FlowNodeKind, count: nat): TypeData
    decreases node, 0
  {
    match kind
    case BoundaryEvent => BoundaryData(GetAttr(node, AttrAttachedToRef), GetAttr(node, AttrCancelActivity) != Some("false"), None)
    case SubProcess =>
      if node.Text? then PlainData
      else
        var defaults := DefaultsOf(node.kids);
        SubProcessData(GetAttr(node, AttrTriggeredByEvent) == Some("true"), node.tag == TagTransaction, node.tag == TagAdHocSubProcess,
                       Linked(ScopeNodes(node.kids, count), defaults), EachMarked(FlowsOf(node.kids), defaults))
    case ExclusiveGateway => DefaultingGatewayData(None)
    case InclusiveGateway => DefaultingGatewayData(None)
    case _ => PlainData
  }

  /** The flow nodes directly in a scope, before its passes. */
  function ScopeNodes(kids: seq<Node>, count: nat): seq<FlowNode>
    decreases kids, 0
  {
    if kids == [] then []
    else
      var n := |kids| - 1;
      ScopeNodes(kids[..n], count) +
      if IsFlowElement(kids[n]) then [FlowNodeOf(kids[n], KindOf(kids[n].tag).value, count + ScopeCount(kids[..n]))] else []
  }

  // ----- compensation handlers

  /** The target each source names; of several associations the last one counts, and only those with both ends. */
  function HandlersOf(associations: seq<Association>): map<string, string> {
    if associations == [] then map[]
    else
      var n := |associations| - 1;
      var before := HandlersOf(associations[..n]);
      if associations[n].sourceRef.Some? && associations[n].targetRef.Some?
      then before[associations[n].sourceRef.value := associations[n].targetRef.value] else before
  }

  function Compensate(node: FlowNode, handlers: map<string, string>): FlowNode
    decreases node, 1
  {
    match node.typeData
    case BoundaryData(attachedTo, cancel, _) =>
      if node.head.id in handlers then node.(typeData := BoundaryData(attachedTo, cancel, Some(handlers[node.head.id]))) else node
    case SubProcessData(triggered, transaction, adHoc, inner, flows) =>
      node.(typeData := SubProcessData(triggered, transaction, adHoc, CompensateAll(inner, handlers), flows))
    case _ => node
  }

  function CompensateAll(nodes: seq<FlowNode>, handlers: map<string, string>): seq<FlowNode>
    decreases nodes, 0
  {
    if nodes == [] then []
    else CompensateAll(nodes[..|nodes| - 1], handlers) + [Compensate(nodes[|nodes| - 1], handlers)]
  }

  function ProcessOf(node: Node, count: nat): Process {
    var kids := Children(node);
    var defaults := DefaultsOf(kids);
    var associations := AssociationsIn(kids);
    Process(AttrOrEmpty(node, AttrId), GetAttr(node, AttrName), GetAttr(node, AttrIsExecutable) != Some("false"),
            Linked(CompensateAll(ScopeNodes(kids, count), HandlersOf(associations)), defaults),
            EachMarked(FlowsOf(kids), defaults), LanesIn(kids), associations)
  }

  // ----- one more child

  lemma RefTextsLast(kids: seq<Node>, kid: Node, tag: Tag)
    ensures RefTexts(kids + [kid], tag) == RefTexts(kids, tag) + if HasTag(kid, tag) && TextContent(kid) != "" then [TextContent(kid)] else []
    ensures RefTexts([], tag) == []
  {
    assert (kids + [kid])[..|kids + [kid]| - 1] == kids;
  }

  lemma DocumentationLast(kids: seq<Node>, kid: Node)
    ensures DocumentationOf(kids + [kid]) ==
      if HasTag(kid, TagDocumentation) && TextContent(kid) != "" then Some(TextContent(kid)) else DocumentationOf(kids)
  {
    hide RefTexts, TextContent;
    RefTextsLast(kids, kid, TagDocumentation);
  }

  lemma AssociationsLast(kids: seq<Node>, kid: Node, count: nat)
    ensures AssociationCount(kids + [kid]) == AssociationCount(kids) + if PrefixOf(kid).Some? then 1 else 0
    ensures DataAssociations(kids + [kid], Dia, count) == DataAssociations(kids, Dia, count) +
            (if PrefixOf(kid) == Some(Dia) then [DataAssociationOf(kid, Dia, count + AssociationCount(kids) + 1)] else [])
    ensures DataAssociations(kids + [kid], Doa, count) == DataAssociations(kids, Doa, count) +
            (if PrefixOf(kid) == Some(Doa) then [DataAssociationOf(kid, Doa, count + AssociationCount(kids) + 1)] else [])
    ensures AssociationCount([]) == 0 && DataAssociations([], Dia, count) == DataAssociations([], Doa, count) == []
  {
    hide DataAssociationOf, PrefixOf;
    assert (kids + [kid])[..|kids + [kid]| - 1] == kids;
  }

  lemma PrefixMeans(kid: Node)
    ensures PrefixOf(kid) ==
      if HasTag(kid, TagDataInputAssociation) then Some(Dia) else if HasTag(kid, TagDataOutputAssociation) then Some(Doa) else None
  {
  }

  lemma ScopeNodesLast(kids: seq<Node>, kid: Node, count: nat)
    ensures ScopeCount(kids + [kid]) == ScopeCount(kids) + if IsFlowElement(kid) then NodeCount(kid) else 0
    ensures ScopeNodes(kids + [kid], count) == ScopeNodes(kids, count) +
      if IsFlowElement(kid) then [FlowNodeOf(kid, KindOf(kid.tag).value, count + ScopeCount(kids))] else []
  {
    hide NodeCount, FlowNodeOf, KindOf;
    assert (kids + [kid])[..|kids + [kid]| - 1] == kids;
  }

  lemma FlowIsNoNode(kid: Node)
    ensures HasTag(kid, TagSequenceFlow) ==> !IsFlowElement(kid)
  {
  }

  lemma ScopeFlowsLast(kids: seq<Node>, kid: Node)
    ensures FlowsOf(kids + [kid]) == FlowsOf(kids) + if HasTag(kid, TagSequenceFlow) then [SequenceFlowOf(kid)] else []
    ensures DefaultsOf(kids + [kid]) ==
      if IsFlowElement(kid) && GetAttr(kid, AttrDefault).Some?
      then DefaultsOf(kids)[AttrOrEmpty(kid, AttrId) := GetAttr(kid, AttrDefault).value] else DefaultsOf(kids)
  {
    hide SequenceFlowOf, KindOf, GetAttr, AttrOrEmpty;
    assert (kids + [kid])[..|kids + [kid]| - 1] == kids;
  }

  lemma NothingInScope(count: nat)
    ensures ScopeCount([]) == 0 && ScopeNodes([], count) == [] && FlowsOf([]) == [] && DefaultsOf([]) == map[]
  {
  }

  // ----- the parser

  /** The parser and its module-wide counter. */
  class Parser {
    var autoIdCounter: nat

    constructor ()
      ensures autoIdCounter == 0
    {
      autoIdCounter := 0;
    }

    method ParseAssociation(node: Node, prefix: Prefix) returns (a: DataAssociation)
      modifies this
      ensures autoIdCounter == old(autoIdCounter) + 1
      ensures a == DataAssociationOf(node, prefix, old(autoIdCounter) + 1)
    {
      autoIdCounter := autoIdCounter + 1;
      var kids := Children(node);
      var id := match GetAttr(node, AttrId) case Some(id) => Given(id) case None => Auto(prefix, autoIdCounter);
      a := DataAssociation(id, NonEmpty(ChildText(kids, TagSourceRef)), NonEmpty(ChildText(kids, TagTargetRef)), NonEmpty(ChildText(kids, TagTransformation)));
    }

    method ParseAssociations(kids: seq<Node>) returns (inputs: seq<DataAssociation>, outputs: seq<DataAssociation>)
      modifies this
      ensures autoIdCounter == old(autoIdCounter) + AssociationCount(kids)
      ensures inputs == DataAssociations(kids, Dia, old(autoIdCounter)) && outputs == DataAssociations(kids, Doa, old(autoIdCounter))
    {
      hide DataAssociations, AssociationCount, DataAssociationOf, GetAttr, PrefixOf, HasTag;
      ghost var count := autoIdCounter;
      AssociationsLast([], Text(""), count);
      inputs, outputs := [], [];
      for i := 0 to |kids|
        invariant autoIdCounter == count + AssociationCount(kids[..i])
        invariant inputs == DataAssociations(kids[..i], Dia, count) && outputs == DataAssociations(kids[..i], Doa, count)
      {
        assert kids[..i + 1] == kids[..i] + [kids[i]];
        AssociationsLast(kids[..i], kids[i], count);
        PrefixMeans(kids[i]);
        if HasTag(kids[i], TagDataInputAssociation) {
          var a := ParseAssociation(kids[i], Dia);
          inputs := inputs + [a];
        } else if HasTag(kids[i], TagDataOutputAssociation) {
          var a := ParseAssociation(kids[i], Doa);
          outputs := outputs + [a];
        }
      }
      assert kids[..|kids|] == kids;
    }

    static method ParseHead(node: Node, kind: FlowNodeKind) returns (head: Head)
      ensures head == HeadOf(node, kind)
    {
      hide TextContent, RefTexts, GetAttr, AttrOrEmpty, Reverse;
      var kids := Children(node);
      var incoming: seq<string>, outgoing: seq<string>, documentation: Option<string> := [], [], None;
      RefTextsLast([], Text(""), TagIncoming);
      RefTextsLast([], Text(""), TagOutgoing);
      RefTextsLast([], Text(""), TagDocumentation);
      for i := 0 to |kids|
        invariant incoming == RefTexts(kids[..i], TagIncoming) && outgoing == RefTexts(kids[..i], TagOutgoing)
        invariant documentation == DocumentationOf(kids[..i])
      {
        var kid := kids[i];
        assert kids[..i + 1] == kids[..i] + [kid];
        RefTextsLast(kids[..i], kid, TagIncoming);
        RefTextsLast(kids[..i], kid, TagOutgoing);
        DocumentationLast(kids[..i], kid);
        hide DocumentationOf;
        if kid.Elem? {
          match kid.tag {
            case TagIncoming => if TextContent(kid) != "" { incoming := incoming + [TextContent(kid)]; }
            case TagOutgoing => if TextContent(kid) != "" { outgoing := outgoing + [TextContent(kid)]; }
            case TagDocumentation => if TextContent(kid) != "" { documentation := Some(TextContent(kid)); }
            case _ =>
          }
        }
      }
      assert kids[..|kids|] == kids;
      head := Head(AttrOrEmpty(node, AttrId), GetAttr(node, AttrName), kind, Reverse(incoming), Reverse(outgoing),
                   GetAttr(node, AttrIsForCompensation) == Some("true"), documentation);
    }

    method ParseFlowNode(node: Node, kind: FlowNodeKind) returns (flowNode: FlowNode)
      requires node.Elem? && KindOf(node.tag) == Some(kind)
      modifies this
      ensures autoIdCounter == old(autoIdCounter) + NodeCount(node)
      ensures flowNode == FlowNodeOf(node, kind, old(autoIdCounter))
      decreases node, 2
    {
      hide *;
      ghost var count := autoIdCounter;
      var head := ParseHead(node, kind);
      var inputs, outputs := ParseAssociations(node.kids);
      var typeData := BuildTypeData(node, kind);
      flowNode := FlowNode(head, typeData, [], Reverse(inputs), Reverse(outputs));
      FlowNodeMeans(node, kind, count);
    }

    static lemma FlowNodeMeans(node: Node, kind: FlowNodeKind, count: nat)
      requires node.Elem? && KindOf(node.tag) == Some(kind)
      ensures FlowNodeOf(node, kind, count) ==
        FlowNode(HeadOf(node, kind), TypeDataOf(node, kind, count + AssociationCount(node.kids)), [],
                 Reverse(DataAssociations(node.kids, Dia, count)), Reverse(DataAssociations(node.kids, Doa, count)))
      ensures NodeCount(node) == AssociationCount(node.kids) + ContentCount(node, kind)
    {
      hide HeadOf, TypeDataOf, DataAssociations, Reverse, AssociationCount, ScopeCount;
    }

    method BuildTypeData(node: Node, kind: FlowNodeKind) returns (typeData: TypeData)
      requires node.Elem? && KindOf(node.tag) == Some(kind)
      modifies this
      ensures autoIdCounter == old(autoIdCounter) + ContentCount(node, kind)
      ensures typeData == TypeDataOf(node, kind, old(autoIdCounter))
      decreases node, 1
    {
      hide ScopeNodes, ScopeCount, DefaultsOf, FlowsOf, Linked, EachMarked, GetAttr, KindOf;
      match kind {
        case BoundaryEvent =>
          typeData := BoundaryData(GetAttr(node, AttrAttachedToRef), GetAttr(node, AttrCancelActivity) != Some("false"), None);
        case SubProcess =>
          var inner, flows := ParseScope(node.kids);
          typeData := SubProcessData(GetAttr(node, AttrTriggeredByEvent) == Some("true"), node.tag == TagTransaction, node.tag == TagAdHocSubProcess, inner, flows);
        case ExclusiveGateway =>
          typeData := DefaultingGatewayData(None);
        case InclusiveGateway =>
          typeData := DefaultingGatewayData(None);
        case _ =>
          typeData := PlainData;
      }
    }

    /** The inner scope of a subprocess: its own nodes and flows, linked among themselves. */
    method ParseScope(kids: seq<Node>) returns (nodes: seq<FlowNode>, flows: seq<SequenceFlow>)
      modifies this
      ensures autoIdCounter == old(autoIdCounter) + ScopeCount(kids)
      ensures nodes == Linked(ScopeNodes(kids, old(autoIdCounter)), DefaultsOf(kids))
      ensures flows == EachMarked(FlowsOf(kids), DefaultsOf(kids))
      decreases kids, 1
    {
      hide *;
      var defaults;
      nodes, flows, defaults := ReadScope(kids);
      nodes, flows := ApplyDefaultFlows(nodes, flows, defaults);
      nodes := LinkBoundaryRefs(nodes);
      LinkedMeans(ScopeNodes(kids, old(autoIdCounter)), DefaultsOf(kids));
    }

    method ReadScope(kids: seq<Node>) returns (nodes: seq<FlowNode>, flows: seq<SequenceFlow>, defaults: map<string, string>)
      modifies this
      ensures autoIdCounter == old(autoIdCounter) + ScopeCount(kids)
      ensures nodes == ScopeNodes(kids, old(autoIdCounter)) && flows == FlowsOf(kids) && defaults == DefaultsOf(kids)
      decreases kids, 0
    {
      hide ScopeNodes, ScopeCount, FlowsOf, DefaultsOf, FlowNodeOf, NodeCount, SequenceFlowOf, GetAttr, AttrOrEmpty, KindOf;
      ghost var count := autoIdCounter;
      nodes, flows, defaults := [], [], map[];
      NothingInScope(count);
      for i := 0 to |kids|
        invariant autoIdCounter == count + ScopeCount(kids[..i])
        invariant nodes == ScopeNodes(kids[..i], count) && flows == FlowsOf(kids[..i]) && defaults == DefaultsOf(kids[..i])
      {
        var kid := kids[i];
        assert kids[..i + 1] == kids[..i] + [kid];
        ScopeNodesLast(kids[..i], kid, count);
        ScopeFlowsLast(kids[..i], kid);
        FlowIsNoNode(kid);
        if IsFlowElement(kid) {
          if GetAttr(kid, AttrDefault).Some? {
            defaults := defaults[AttrOrEmpty(kid, AttrId) := GetAttr(kid, AttrDefault).value];
          }
          var flowNode := ParseFlowNode(kid, KindOf(kid.tag).value);
          nodes := nodes + [flowNode];
        } else if HasTag(kid, TagSequenceFlow) {
          flows := flows + [SequenceFlowOf(kid)];
        }
      }
      assert kids[..|kids|] == kids;
    }

    /** Overwrites gateways' default flows and marks the flows named. */
    static method ApplyDefaultFlows(nodes: seq<FlowNode>, flows: seq<SequenceFlow>, defaults: map<string, string>)
      returns (nodes': seq<FlowNode>, flows': seq<SequenceFlow>)
      ensures nodes' == EachWithDefault(nodes, defaults) && flows' == EachMarked(flows, defaults)
    {
      hide WithDefault, MarkDefault;
      nodes', flows' := nodes, flows;
      for i := 0 to |nodes|
        invariant |nodes'| == |nodes|
        invariant forall j :: 0 <= j < |nodes| ==> nodes'[j] == if j < i then WithDefault(nodes[j], defaults) else nodes[j]
      {
        var node := nodes'[i];
        if node.head.id in defaults && node.typeData.DefaultingGatewayData? {
          node := node.(typeData := DefaultingGatewayData(Some(defaults[node.head.id])));
        }
        WithDefaultMeans(nodes[i], defaults);
        nodes' := nodes'[i := node];
      }
      for i := 0 to |flows|
        invariant |flows'| == |flows|
        invariant forall j :: 0 <= j < |flows| ==> flows'[j] == if j < i then MarkDefault(flows[j], defaults) else flows[j]
      {
        MarkDefaultMeans(flows[i], defaults);
        if flows'[i].id in defaults.Values {
          flows' := flows'[i := flows'[i].(isDefault := true)];
        }
      }
    }

    static lemma WithDefaultMeans(node: FlowNode, defaults: map<string, string>)
      ensures WithDefault(node, defaults) ==
        if node.head.id in defaults && node.typeData.DefaultingGatewayData?
        then node.(typeData := DefaultingGatewayData(Some(defaults[node.head.id]))) else node
    {
    }

    static lemma MarkDefaultMeans(flow: SequenceFlow, defaults: map<string, string>)
      ensures MarkDefault(flow, defaults) == if flow.id in defaults.Values then flow.(isDefault := true) else flow
    {
    }

    /** Groups the events by host, walking backwards, and hands each host its group. */
    static method LinkBoundaryRefs(nodes: seq<FlowNode>) returns (nodes': seq<FlowNode>)
      ensures nodes' == EachWithRefs(nodes)
    {
      var refs := GroupBoundaryEvents(nodes);
      hide AttachedTo, WithRefs;
      nodes' := nodes;
      for i := 0 to |nodes|
        invariant |nodes'| == |nodes|
        invariant forall j :: 0 <= j < |nodes| ==> nodes'[j] == if j < i then WithRefs(nodes[j], nodes) else nodes[j]
      {
        var node := nodes'[i];
        WithRefsMeans(nodes[i], nodes);
        if node.head.id in refs {
          nodes' := nodes'[i := node.(boundaryEventRefs := refs[node.head.id])];
        }
      }
    }

    static lemma WithRefsMeans(node: FlowNode, nodes: seq<FlowNode>)
      ensures WithRefs(node, nodes) ==
        if AttachedTo(nodes, node.head.id) == [] then node else node.(boundaryEventRefs := AttachedTo(nodes, node.head.id))
    {
    }

    static method GroupBoundaryEvents(nodes: seq<FlowNode>) returns (refs: map<string, seq<string>>)
      ensures forall h :: AttachedTo(nodes, h) == if h in refs then refs[h] else []
      ensures forall h :: h in refs ==> refs[h] != []
    {
      hide AttachedTo;
      refs := map[];
      NoneAttached();
      assert nodes[..|nodes|] == nodes;
      for i := |nodes| downto 0
        invariant forall h :: AttachedTo(nodes, h) == (if h in refs then refs[h] else []) + AttachedTo(nodes[..i], h)
        invariant forall h :: h in refs ==> refs[h] != []
      {
        var node := nodes[i];
        assert nodes[..i + 1] == nodes[..i] + [node];
        AttachedLast(nodes[..i], node);
        if node.typeData.BoundaryData? && node.typeData.attachedToRef.Some? {
          var host := node.typeData.attachedToRef.value;
          ghost var was := refs;
          refs := refs[host := (if host in refs then refs[host] else []) + [node.head.id]];
          forall h ensures AttachedTo(nodes, h) == (if h in refs then refs[h] else []) + AttachedTo(nodes[..i], h) {
            if h == host {
              CatAssociates(if h in was then was[h] else [], [node.head.id], AttachedTo(nodes[..i], h));
            }
          }
        }
      }
    }

    static lemma NoneAttached()
      ensures forall h :: AttachedTo([], h) == []
    {
    }

    static lemma AttachedLast(nodes: seq<FlowNode>, node: FlowNode)
      ensures forall h :: AttachedTo(nodes + [node], h) == (if IsAttached(node, h) then [node.head.id] else []) + AttachedTo(nodes, h)
    {
      assert (nodes + [node])[..|nodes + [node]| - 1] == nodes;
    }

    static lemma LinkedMeans(nodes: seq<FlowNode>, defaults: map<string, string>)
      ensures Linked(nodes, defaults) == EachWithRefs(EachWithDefault(nodes, defaults))
    {
    }

    static method HandlerMap(associations: seq<Association>) returns (handlers: map<string, string>)
      ensures handlers == HandlersOf(associations)
    {
      handlers := map[];
      for i := 0 to |associations|
        invariant handlers == HandlersOf(associations[..i])
      {
        assert associations[..i + 1][..i] == associations[..i];
        if associations[i].sourceRef.Some? && associations[i].targetRef.Some? {
          handlers := handlers[associations[i].sourceRef.value := associations[i].targetRef.value];
        }
      }
      assert associations[..|associations|] == associations;
    }

    /** Nothing to do without associations; otherwise every boundary event at any depth is looked up. */
    static method LinkCompensationHandlers(nodes: seq<FlowNode>, associations: seq<Association>) returns (nodes': seq<FlowNode>)
      ensures nodes' == CompensateAll(nodes, HandlersOf(associations))
    {
      if associations == [] {
        NoHandlers(nodes);
        return nodes;
      }
      var handlers := HandlerMap(associations);
      nodes' := Visit(nodes, handlers);
    }

    static method Visit(nodes: seq<FlowNode>, handlers: map<string, string>) returns (nodes': seq<FlowNode>)
      ensures nodes' == CompensateAll(nodes, handlers)
      decreases nodes
    {
      hide CompensateAll;
      nodes' := [];
      CompensateLast([], nodes, handlers);
      for i := 0 to |nodes|
        invariant nodes' == CompensateAll(nodes[..i], handlers)
      {
        var node := nodes[i];
        assert nodes[..i + 1] == nodes[..i] + [node];
        CompensateLast(nodes[..i], [node], handlers);
        if node.typeData.BoundaryData? {
          if node.head.id in handlers {
            node := node.(typeData := node.typeData.(compensationHandlerId := Some(handlers[node.head.id])));
          }
        } else if node.typeData.SubProcessData? {
          var inner := Visit(node.typeData.flowNodes, handlers);
          node := node.(typeData := node.typeData.(flowNodes := inner));
        }
        nodes' := nodes' + [node];
      }
      assert nodes[..|nodes|] == nodes;
    }

    static lemma CompensateLast(nodes: seq<FlowNode>, more: seq<FlowNode>, handlers: map<string, string>)
      ensures CompensateAll([], handlers) == []
      ensures |more| == 1 ==> CompensateAll(nodes + more, handlers) == CompensateAll(nodes, handlers) + [Compensate(more[0], handlers)]
    {
      if |more| == 1 {
        assert (nodes + more)[..|nodes + more| - 1] == nodes;
      }
    }

    static lemma {:induction false} NoHandlers(nodes: seq<FlowNode>)
      ensures CompensateAll(nodes, map[]) == nodes
      decreases nodes, 1
    {
      if nodes == [] {
      } else {
        var rest, last := nodes[..|nodes| - 1], nodes[|nodes| - 1];
        assert nodes == rest + [last];
        NoHandlers(rest);
        if last.typeData.SubProcessData? { NoHandlers(last.typeData.flowNodes); }
      }
    }

    method ParseProcess(node: Node) returns (process: Process)
      modifies this
      ensures autoIdCounter == old(autoIdCounter) + ScopeCount(Children(node))
      ensures process == ProcessOf(node, old(autoIdCounter))
    {
      hide ScopeNodes, ScopeCount, FlowsOf, DefaultsOf, LanesIn, AssociationsIn, HandlersOf, CompensateAll, EachWithDefault, EachMarked, EachWithRefs;
      ghost var count := autoIdCounter;
      var nodes, flows, defaults := ReadScope(Children(node));
      var lanes := CollectLanesDeep(node, []);
      var associations := CollectAssociationsDeep(node, []);
      assert lanes == LanesIn(Children(node)) && associations == AssociationsIn(Children(node));
      nodes := LinkCompensationHandlers(nodes, associations);
      nodes, flows := ApplyDefaultFlows(nodes, flows, defaults);
      nodes := LinkBoundaryRefs(nodes);
      process := Process(AttrOrEmpty(node, AttrId), GetAttr(node, AttrName), GetAttr(node, AttrIsExecutable) != Some("false"),
                         nodes, flows, lanes, associations);
    }
  }
}
