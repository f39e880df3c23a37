/** The parsed process model (packages/js/sdk/src/bpmn/model.ts), with the fields the linking passes work on. */
module BpmnModel {
  import opened Collections
  import opened Xml
  import opened Numerals

  datatype FlowNodeKind =
    | StartEvent | EndEvent | IntermediateCatchEvent | IntermediateThrowEvent | BoundaryEvent
    | Task | UserTask | ServiceTask | ManualTask | ScriptTask | BusinessRuleTask | SendTask | ReceiveTask | CallActivity
    | SubProcess
    | ExclusiveGateway | ParallelGateway | InclusiveGateway | EventBasedGateway | ComplexGateway

  /** The elements that are flow nodes, and the kind each stands for. */
  function KindOf(tag: Tag): Option<FlowNodeKind> {
    match tag
    case TagStartEvent => Some(StartEvent)
    case TagEndEvent => Some(EndEvent)
    case TagIntermediateCatchEvent => Some(IntermediateCatchEvent)
    case TagIntermediateThrowEvent => Some(IntermediateThrowEvent)
    case TagBoundaryEvent => Some(BoundaryEvent)
    case TagTask => Some(Task)
    case TagUserTask => Some(UserTask)
    case TagServiceTask => Some(ServiceTask)
    case TagManualTask => Some(ManualTask)
    case TagScriptTask => Some(ScriptTask)
    case TagBusinessRuleTask => Some(BusinessRuleTask)
    case TagSendTask => Some(SendTask)
    case TagReceiveTask => Some(ReceiveTask)
    case TagCallActivity => Some(CallActivity)
    case TagSubProcess => Some(SubProcess)
    case TagTransaction => Some(SubProcess)
    case TagAdHocSubProcess => Some(SubProcess)
    case TagExclusiveGateway => Some(ExclusiveGateway)
    case TagParallelGateway => Some(ParallelGateway)
    case TagInclusiveGateway => Some(InclusiveGateway)
    case TagEventBasedGateway => Some(EventBasedGateway)
    case TagComplexGateway => Some(ComplexGateway)
    case _ => None
  }

  predicate IsFlowElement(node: Node) {
    node.Elem? && KindOf(node.tag).Some?
  }

  datatype Prefix = Dia | Doa

  /** An id from the document, or one made up from the counter. */
  datatype AssociationId = Given(text: string) | Auto(prefix: Prefix, n: nat)

  function IdText(id: AssociationId): string {
    match id
    case Given(text) => text
    case Auto(prefix, n) => (if prefix == Dia then "dia" else "doa") + "_auto_" + Decimal(n)
  }

  datatype DataAssociation = DataAssociation(id: AssociationId, sourceRef: Option<string>, targetRef: Option<string>, valueExpression: Option<string>)

  datatype SequenceFlow = SequenceFlow(id: string, name: Option<string>, sourceRef: string, targetRef: string, condition: Option<string>, isDefault: bool)

  datatype TypeData =
    | BoundaryData(attachedToRef: Option<string>, cancelActivity: bool, compensationHandlerId: Option<string>)
    | SubProcessData(triggeredByEvent: bool, isTransaction: bool, isAdHoc: bool, flowNodes: seq<FlowNode>, sequenceFlows: seq<SequenceFlow>)
    | DefaultingGatewayData(defaultFlowRef: Option<string>)
    | PlainData

  datatype FlowNode = FlowNode(
    head: Head,
    typeData: TypeData,
    boundaryEventRefs: seq<string>,
    dataInputAssociations: seq<DataAssociation>,
    dataOutputAssociations: seq<DataAssociation>)

  /** The part of a flow node that is read off its own element and no pass changes. */
  datatype Head = Head(id: string, name: Option<string>, kind: FlowNodeKind, incoming: seq<string>, outgoing: seq<string>,
                       isForCompensation: bool, documentation: Option<string>)

  datatype Lane = Lane(id: string, name: Option<string>, flowNodeRefs: seq<string>)

  datatype Association = Association(id: string, sourceRef: Option<string>, targetRef: Option<string>, direction: Option<string>)

  datatype Process = Process(id: string, name: Option<string>, isExecutable: bool, flowNodes: seq<FlowNode>, sequenceFlows: seq<SequenceFlow>,
                             lanes: seq<Lane>, associations: seq<Association>)

  /** All flow nodes of all scopes, each before its content. */
  function Flatten(nodes: seq<FlowNode>): seq<FlowNode> {
    if nodes == [] then []
    else
      var n := |nodes| - 1;
      Flatten(nodes[..n]) + [nodes[n]] +
      if nodes[n].typeData.SubProcessData? then Flatten(nodes[n].typeData.flowNodes) else []
  }

  lemma AutoIdsInjective(a: AssociationId, b: AssociationId)
    requires a.Auto? && b.Auto? && IdText(a) == IdText(b)
    ensures a == b
  {
    var s, t := IdText(a), IdText(b);
    assert s[1] == (if a.prefix == Dia then 'i' else 'o');
    assert t[1] == (if b.prefix == Dia then 'i' else 'o');
    assert s[9..] == Decimal(a.n) && t[9..] == Decimal(b.n);
    DecimalInjective(a.n, b.n);
  }
}
