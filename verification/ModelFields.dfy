/**
 The field tables of packages/js/sdk/src/graphql/model-fields.ts, and the laws of
 FlowNodeSelection for the selections really sent.
 */
module ModelFields {
  import opened Selection
  import opened FlowNodeSelection

  function Scalars(names: seq<string>): seq<Field> {
    if names == [] then [] else Scalars(names[..|names| - 1]) + [Scalar(names[|names| - 1])]
  }

  function Group(name: string, names: seq<string>): seq<Field> {
    [Nested(name, Scalars(names), [])]
  }

  const MAPPING := ["source", "target"]
  const ASSOCIATION := ["id", "sourceRef", "targetRef", "valueExpression"]
  const SEQUENCE_FLOW := ["id", "name", "sourceRef", "targetRef", "conditionExpression", "isDefault"]
  const DATA_OBJECT := ["id", "name", "itemSubjectRef", "valueContract"]
  const DATA_OBJECT_REFERENCE := ["id", "name", "dataObjectRef", "dataState"]
  const DATA_STORE_REFERENCE := ["id", "name", "dataStoreRef", "dataState"]

  const IN_MAPPINGS: seq<Field> := Group("inMappings", MAPPING)
  const OUT_MAPPINGS: seq<Field> := Group("outMappings", MAPPING)

  function WithMappings(names: seq<string>): seq<Field> {
    IN_MAPPINGS + OUT_MAPPINGS + Scalars(names)
  }

  const COMMON_FIELDS: seq<Field> :=
    Scalars(["id", "name", "type", "incoming", "outgoing", "boundaryEventRefs", "isForCompensation", "documentation", "parentSubProcessId"]) +
    Group("dataInputAssociations", ASSOCIATION) +
    Group("dataOutputAssociations", ASSOCIATION) +
    Group("multiInstance", ["isSequential", "collectionExpression", "elementVariable", "completionCondition", "outputCollection",
                            "outputElementVariable", "loopBreakCondition", "loopInterval", "maxIterations"]) +
    Group("standardLoop", ["testBefore", "loopCondition", "loopMaximum", "loopInterval"])

  /** A type and the fields it adds: scalars, after the two mappings if it has them. */
  datatype Row = Row(typeName: string, mapped: bool, names: seq<string>)

  function RowFields(row: Row): seq<Field> {
    if row.mapped then WithMappings(row.names) else Scalars(row.names)
  }

  function Table(rows: seq<Row>): seq<Fragment> {
    if rows == [] then [] else Table(rows[..|rows| - 1]) + [Fragment(rows[|rows| - 1].typeName, RowFields(rows[|rows| - 1]))]
  }

  const EVENT_ROWS: seq<Row> := [
    Row("NoneEventDefinition", false, ["isNone"]),
    Row("MessageEventDefinition", false, ["messageRef", "correlationRetrievalExpression"]),
    Row("SignalEventDefinition", false, ["signalRef"]),
    Row("TimerEventDefinition", false, ["timeDate", "timeDuration", "timeCycle"]),
    Row("ErrorEventDefinition", false, ["errorRef", "errorCode", "errorMessage"]),
    Row("EscalationEventDefinition", false, ["escalationRef", "escalationCode"]),
    Row("ConditionalEventDefinition", false, ["conditionExpression"]),
    Row("CompensationEventDefinition", false, ["activityRef", "waitForCompletion"]),
    Row("TerminateEventDefinition", false, ["isTerminate"]),
    Row("CancelEventDefinition", false, ["isCancel"]),
    Row("LinkEventDefinition", false, ["linkName"])
  ]

  const EVENT_DEFINITIONS: seq<Fragment> := Table(EVENT_ROWS)

  const EVENT_DEFINITION: seq<Field> := [Nested("eventDefinition", [], EVENT_DEFINITIONS)]

  const TYPE_FIELDS: seq<Fragment> := TASK_FIELDS + [Fragment(SUB_PROCESS, SubProcessFields())] + OTHER_FIELDS + EVENT_FIELDS

  const TASK_ROWS: seq<Row> := [
    Row("TaskNode", false, []),
    Row("UserTaskNode", true, ["formFields", "formActions", "assigneesExpression", "payloadContract", "resultContract", "dueDate", "priority"]),
    Row("ServiceTaskNode", true, ["implementation", "payloadContract", "resultContract", "httpUrl", "httpMethod", "httpBody", "httpAuthHeader", "httpResponseHeaders"]),
    Row("ManualTaskNode", false, ["requireConfirmation"]),
    Row("ScriptTaskNode", true, ["scriptFormat", "script", "scriptRef", "payloadContract", "resultContract"]),
    Row("BusinessRuleTaskNode", true, ["implementation", "script", "decisionRef", "decisionElementId", "resultVariable", "traceUnmatchedRules",
                                       "payloadContract", "resultContract"]),
    Row("SendTaskNode", true, ["messageRef", "payloadContract", "correlationRetrievalExpression"]),
    Row("ReceiveTaskNode", true, ["messageRef", "resultContract"]),
    Row("CallActivityNode", true, ["calledElement", "startEventId", "calledProcessVersion"])
  ]

  const TASK_FIELDS: seq<Fragment> := Table(TASK_ROWS)

  const OTHER_ROWS: seq<Row> := [
    Row("ExclusiveGatewayNode", false, ["defaultFlowRef"]),
    Row("ParallelGatewayNode", false, []),
    Row("InclusiveGatewayNode", false, ["defaultFlowRef"]),
    Row("EventBasedGatewayNode", false, []),
    Row("ComplexGatewayNode", false, ["activationCondition"]),
    Row("UnknownNode", false, ["elementName", "attributes"])
  ]

  const OTHER_FIELDS: seq<Fragment> := Table(OTHER_ROWS)

  const EVENT_FIELDS: seq<Fragment> := [
    Fragment("StartEventNode", EVENT_DEFINITION + Scalars(["resultContract", "isInterrupting"])),
    Fragment("EndEventNode", EVENT_DEFINITION + IN_MAPPINGS + Scalars(["payloadContract"])),
    Fragment("IntermediateCatchEventNode", EVENT_DEFINITION + OUT_MAPPINGS + Scalars(["resultContract"])),
    Fragment("IntermediateThrowEventNode", EVENT_DEFINITION + IN_MAPPINGS + Scalars(["payloadContract"])),
    Fragment("BoundaryEventNode", EVENT_DEFINITION + Scalars(["attachedToRef", "cancelActivity", "compensationHandlerId"]) + OUT_MAPPINGS + Scalars(["resultContract"]))
  ]

  function SubProcessFields(): seq<Field> {
    WithMappings(["triggeredByEvent", "isTransaction", "transactionMethod", "isAdHoc", "adhocOrdering", "cancelRemainingInstances",
                  "adhocCompletionCondition", "implementation", "activeElementsExpression", "payloadContract", "resultContract"]) +
    Group("dataObjects", DATA_OBJECT) + Group("dataObjectReferences", DATA_OBJECT_REFERENCE) +
    Group("dataStoreReferences", DATA_STORE_REFERENCE) + Group("sequenceFlows", SEQUENCE_FLOW)
  }

  // ----- what a row asks for

  ghost predicate IsMapping(field: Field, name: string) {
    field == Nested(name, [Scalar("source"), Scalar("target")], [])
  }

  /** Both mappings, where the type has them, and a scalar for each of its names, in order; nothing else. */
  ghost predicate SaysRow(fields: seq<Field>, row: Row) {
    var first := if row.mapped then 2 else 0;
    && |fields| == first + |row.names|
    && (row.mapped ==> IsMapping(fields[0], "inMappings") && IsMapping(fields[1], "outMappings"))
    && forall k :: 0 <= k < |row.names| ==> fields[first + k] == Scalar(row.names[k])
  }

  lemma {:induction false} ScalarsSay(names: seq<string>)
    ensures |Scalars(names)| == |names| && forall k :: 0 <= k < |names| ==> Scalars(names)[k] == Scalar(names[k])
  {
    if names == [] {
    } else {
      ScalarsSay(names[..|names| - 1]);
    }
  }

  lemma RowSays(row: Row)
    ensures SaysRow(RowFields(row), row)
  {
    ScalarsSay(row.names);
    ScalarsSay(MAPPING);
    hide Scalars;
    assert Scalars(MAPPING) == [Scalar("source"), Scalar("target")];
  }

  lemma {:induction false} RowsSay(rows: seq<Row>, i: nat)
    requires i < |rows|
    ensures |Table(rows)| == |rows| && Table(rows)[i].typeName == rows[i].typeName && SaysRow(Table(rows)[i].fields, rows[i])
    decreases |rows|
  {
    hide RowFields, SaysRow;
    var n := |rows| - 1;
    RowSays(rows[n]);
    if n > 0 { RowsSay(rows[..n], if i < n then i else 0); }
  }

  // ----- the tables are what the laws ask for

  /** Nothing in the fields selects nothing, and none of them is called `flowNodes`. */
  ghost predicate Modest(fields: seq<Field>) {
    NoGaps(fields) && NestingAll(fields) == 0
  }

  lemma {:induction false} ModestConcat(a: seq<Field>, b: seq<Field>)
    requires Modest(a) && Modest(b)
    ensures Modest(a + b)
  {
    hide NoGap, Nesting;
    if b == [] {
      assert a + b == a;
    } else {
      assert (a + b)[..|a + b| - 1] == a + b[..|b| - 1];
      ModestConcat(a, b[..|b| - 1]);
    }
  }

  lemma {:induction false} ModestScalars(names: seq<string>)
    ensures Modest(Scalars(names)) && |Scalars(names)| == |names|
  {
    if names == [] {
    } else {
      ModestScalars(names[..|names| - 1]);
    }
  }

  lemma ModestGroup(name: string, names: seq<string>)
    requires name != "flowNodes" && names != []
    ensures Modest(Group(name, names))
  {
    hide Scalars;
    ModestScalars(names);
    var nested := Nested(name, Scalars(names), []);
    NestingAllLast([], nested);
    assert [] + [nested] == Group(name, names);
    assert Nesting(nested) == 0 && NoGap(nested);
  }

  lemma OneGroup(name: string, names: seq<string>)
    ensures |Group(name, names)| == 1
  {
  }

  lemma ModestMappings()
    ensures Modest(IN_MAPPINGS) && Modest(OUT_MAPPINGS)
  {
    hide Modest, Group;
    ModestGroup("inMappings", MAPPING);
    ModestGroup("outMappings", MAPPING);
  }

  lemma ModestCommon()
    ensures Modest(COMMON_FIELDS) && COMMON_FIELDS != []
  {
    hide Modest, Scalars, Group;
    var a := Scalars(["id", "name", "type", "incoming", "outgoing", "boundaryEventRefs", "isForCompensation", "documentation", "parentSubProcessId"]);
    var b, c := Group("dataInputAssociations", ASSOCIATION), Group("dataOutputAssociations", ASSOCIATION);
    var d := Group("multiInstance", ["isSequential", "collectionExpression", "elementVariable", "completionCondition", "outputCollection",
                                     "outputElementVariable", "loopBreakCondition", "loopInterval", "maxIterations"]);
    var e := Group("standardLoop", ["testBefore", "loopCondition", "loopMaximum", "loopInterval"]);
    ModestScalars(["id", "name", "type", "incoming", "outgoing", "boundaryEventRefs", "isForCompensation", "documentation", "parentSubProcessId"]);
    ModestGroup("dataInputAssociations", ASSOCIATION);
    ModestGroup("dataOutputAssociations", ASSOCIATION);
    ModestGroup("multiInstance", ["isSequential", "collectionExpression", "elementVariable", "completionCondition", "outputCollection",
                                  "outputElementVariable", "loopBreakCondition", "loopInterval", "maxIterations"]);
    ModestGroup("standardLoop", ["testBefore", "loopCondition", "loopMaximum", "loopInterval"]);
    ModestConcat(a, b);
    ModestConcat(a + b, c);
    ModestConcat(a + b + c, d);
    ModestConcat(a + b + c + d, e);
  }

  lemma ModestWithMappings(names: seq<string>)
    ensures Modest(WithMappings(names)) && WithMappings(names) != []
  {
    hide Modest, Group, Scalars;
    ModestMappings();
    ModestScalars(names);
    ModestConcat(IN_MAPPINGS, OUT_MAPPINGS);
    ModestConcat(IN_MAPPINGS + OUT_MAPPINGS, Scalars(names));
    assert |Group("inMappings", MAPPING)| == 1 by { OneGroup("inMappings", MAPPING); }
  }

  lemma ModestSubProcess()
    ensures Modest(SubProcessFields()) && SubProcessFields() != []
  {
    hide Modest, Group, WithMappings;
    var names := ["triggeredByEvent", "isTransaction", "transactionMethod", "isAdHoc", "adhocOrdering", "cancelRemainingInstances",
                  "adhocCompletionCondition", "implementation", "activeElementsExpression", "payloadContract", "resultContract"];
    var a, b, c := WithMappings(names), Group("dataObjects", DATA_OBJECT), Group("dataObjectReferences", DATA_OBJECT_REFERENCE);
    var d, e := Group("dataStoreReferences", DATA_STORE_REFERENCE), Group("sequenceFlows", SEQUENCE_FLOW);
    ModestWithMappings(names);
    ModestGroup("dataObjects", DATA_OBJECT);
    ModestGroup("dataObjectReferences", DATA_OBJECT_REFERENCE);
    ModestGroup("dataStoreReferences", DATA_STORE_REFERENCE);
    ModestGroup("sequenceFlows", SEQUENCE_FLOW);
    ModestConcat(a, b);
    ModestConcat(a + b, c);
    ModestConcat(a + b + c, d);
    ModestConcat(a + b + c + d, e);
  }

  ghost predicate ModestTable(table: seq<Fragment>) {
    forall i :: 0 <= i < |table| ==> Modest(table[i].fields)
  }

  lemma {:induction false} RowsModest(rows: seq<Row>)
    ensures |Table(rows)| == |rows| && ModestTable(Table(rows))
    ensures forall i :: 0 <= i < |rows| ==> Table(rows)[i].typeName == rows[i].typeName && (rows[i].names != [] ==> Table(rows)[i].fields != [])
  {
    hide Scalars, WithMappings, Modest;
    if rows == [] {
    } else {
      RowsModest(rows[..|rows| - 1]);
      ModestScalars(rows[|rows| - 1].names);
      ModestWithMappings(rows[|rows| - 1].names);
    }
  }

  lemma ModestUnion(name: string, on: seq<Fragment>)
    requires name != "flowNodes" && on != []
    requires forall i :: 0 <= i < |on| ==> NoGapFragment(on[i]) && NestingFragment(on[i]) == 0
    ensures Modest([Nested(name, [], on)])
  {
    hide NoGapFragment, NestingFragment;
    var nested := Nested(name, [], on);
    FlatOn(on);
    NestingAllLast([], nested);
    assert [] + [nested] == [nested];
    assert Nesting(nested) == 0 && NoGap(nested);
  }

  lemma ModestEvents()
    ensures Modest(EVENT_DEFINITION)
  {
    hide Modest, Table;
    RowsModest(EVENT_ROWS);
    forall i | 0 <= i < |EVENT_DEFINITIONS| ensures NoGapFragment(EVENT_DEFINITIONS[i]) && NestingFragment(EVENT_DEFINITIONS[i]) == 0 {
      SomeNames(i);
      ModestFragment(EVENT_DEFINITIONS[i]);
    }
    ModestUnion("eventDefinition", EVENT_DEFINITIONS);
  }

  lemma SomeNames(i: nat)
    requires i < |EVENT_ROWS|
    ensures EVENT_ROWS[i].names != []
  {
  }

  lemma ModestFragment(fragment: Fragment)
    requires Modest(fragment.fields) && fragment.fields != []
    ensures NoGapFragment(fragment) && NestingFragment(fragment) == 0
  {
  }

  lemma ModestEventNodes()
    ensures ModestTable(EVENT_FIELDS)
  {
    hide Modest, Scalars;
    ModestEvents();
    ModestMappings();
    ModestScalars(["resultContract", "isInterrupting"]);
    ModestScalars(["payloadContract"]);
    ModestScalars(["resultContract"]);
    ModestConcat(EVENT_DEFINITION, Scalars(["resultContract", "isInterrupting"]));
    ModestConcat(EVENT_DEFINITION, IN_MAPPINGS);
    ModestConcat(EVENT_DEFINITION, OUT_MAPPINGS);
    ModestConcat(EVENT_DEFINITION + IN_MAPPINGS, Scalars(["payloadContract"]));
    ModestConcat(EVENT_DEFINITION + OUT_MAPPINGS, Scalars(["resultContract"]));
    ModestBoundary();
  }

  lemma ModestBoundary()
    ensures Modest(EVENT_DEFINITION + Scalars(["attachedToRef", "cancelActivity", "compensationHandlerId"]) + OUT_MAPPINGS + Scalars(["resultContract"]))
  {
    hide Modest, Scalars, Group;
    var own := Scalars(["attachedToRef", "cancelActivity", "compensationHandlerId"]);
    ModestEvents();
    ModestMappings();
    ModestScalars(["attachedToRef", "cancelActivity", "compensationHandlerId"]);
    ModestScalars(["resultContract"]);
    ModestConcat(EVENT_DEFINITION, own);
    ModestConcat(EVENT_DEFINITION + own, OUT_MAPPINGS);
    ModestConcat(EVENT_DEFINITION + own + OUT_MAPPINGS, Scalars(["resultContract"]));
  }

  lemma TypesModest()
    ensures ModestTable(TYPE_FIELDS)
  {
    hide Modest, Table, SubProcessFields;
    RowsModest(TASK_ROWS);
    RowsModest(OTHER_ROWS);
    ModestSubProcess();
    ModestEventNodes();
  }

  const TYPE_NAMES: seq<string> := [
    "TaskNode", "UserTaskNode", "ServiceTaskNode", "ManualTaskNode", "ScriptTaskNode", "BusinessRuleTaskNode", "SendTaskNode", "ReceiveTaskNode",
    "CallActivityNode", SUB_PROCESS, "ExclusiveGatewayNode", "ParallelGatewayNode", "InclusiveGatewayNode", "EventBasedGatewayNode",
    "ComplexGatewayNode", "UnknownNode", "StartEventNode", "EndEventNode", "IntermediateCatchEventNode", "IntermediateThrowEventNode", "BoundaryEventNode"
  ]

  lemma NamesDistinct()
    ensures forall i, j :: 0 <= i < j < |TYPE_NAMES| ==> TYPE_NAMES[i] != TYPE_NAMES[j]
  {
  }

  lemma RowNames(i: nat)
    ensures |TYPE_NAMES| == 21
    ensures i < |TASK_ROWS| ==> TASK_ROWS[i].typeName == TYPE_NAMES[i]
    ensures i < |OTHER_ROWS| ==> OTHER_ROWS[i].typeName == TYPE_NAMES[10 + i]
  {
  }

  lemma EventNames(i: nat)
    ensures i < |EVENT_FIELDS| ==> EVENT_FIELDS[i].typeName == TYPE_NAMES[16 + i]
  {
    hide Table, RowFields, Scalars, Group;
  }

  lemma TypeNames()
    ensures |TYPE_FIELDS| == |TYPE_NAMES|
    ensures forall i :: 0 <= i < |TYPE_FIELDS| ==> TYPE_FIELDS[i].typeName == TYPE_NAMES[i]
  {
    hide Table, SubProcessFields, RowFields, Scalars, Group, Modest;
    RowsModest(TASK_ROWS);
    RowsModest(OTHER_ROWS);
    forall i | 0 <= i < |TYPE_FIELDS| ensures TYPE_FIELDS[i].typeName == TYPE_NAMES[i] {
      if i < 9 {
        RowNames(i);
      } else if 10 <= i < 16 {
        RowNames(i - 10);
      } else if i >= 16 {
        EventNames(i - 16);
      }
    }
  }

  lemma TypesSound()
    ensures Sound(TYPE_FIELDS)
  {
    hide Modest, SubProcessFields, Table;
    TypeNames();
    NamesDistinct();
    ModestSubProcess();
    RowsModest(TASK_ROWS);
    assert TYPE_FIELDS[9].fields == SubProcessFields();
    assert IsSubProcess(TYPE_FIELDS, 9);
  }

  /** The selection for flow nodes and its lines grow by the same amount with every level asked for, and nest exactly that deep. */
  lemma FlowNodeLaws(depth: nat, prefix: string)
    ensures Selections(FlowNode(COMMON_FIELDS, TYPE_FIELDS, depth)) == (depth + 1) * Selections(FlowNode(COMMON_FIELDS, TYPE_FIELDS, 0))
    ensures |Rendered(FlowNode(COMMON_FIELDS, TYPE_FIELDS, depth), prefix)| == (depth + 1) * |Rendered(FlowNode(COMMON_FIELDS, TYPE_FIELDS, 0), prefix)|
    ensures Nesting(FlowNode(COMMON_FIELDS, TYPE_FIELDS, depth)) == depth
  {
    hide Sound, FlowNode, Rendered, Weight, Nesting, TableNoGaps, TableFlat, NoGaps, NestingAll;
    TypesSound();
    TablesFit();
    SizeLaw(COMMON_FIELDS, TYPE_FIELDS, depth, 1);
    LineLaw(COMMON_FIELDS, TYPE_FIELDS, depth, prefix);
    NestsToDepth(COMMON_FIELDS, TYPE_FIELDS, depth);
  }

  lemma TablesFit()
    ensures COMMON_FIELDS != [] && NoGaps(COMMON_FIELDS) && NestingAll(COMMON_FIELDS) == 0 && TableNoGaps(TYPE_FIELDS) && TableFlat(TYPE_FIELDS)
  {
    hide NoGaps, NestingAll, Scalars, Group;
    ModestCommon();
    TypesModest();
  }

  // ----- the process model

  const BEFORE: seq<Field> := Scalars(["id", "name", "version", "isExecutable", "isTransactionScope", "isAdHocScope", "correlationKey"])

  const EXTENSION := ["key", "value", "attributes"]

  const EXTENSIONS: seq<Field> := [Nested("extensions", Scalars(EXTENSION) + Group("children", EXTENSION), [])]

  const GRAPH_PARTS: seq<Field> :=
    Group("sequenceFlows", SEQUENCE_FLOW) + Group("lanes", ["id", "name", "flowNodeRefs"]) + Group("dataObjects", DATA_OBJECT) +
    Group("dataObjectReferences", DATA_OBJECT_REFERENCE) + Group("dataStoreReferences", DATA_STORE_REFERENCE) +
    Group("associations", ["id", "sourceRef", "targetRef", "associationDirection"]) + EXTENSIONS

  const SHARED_PARTS: seq<Field> :=
    Scalars(["definitionsId"]) + Group("messages", ["id", "name"]) + Group("signals", ["id", "name"]) + Group("errors", ["id", "name", "errorCode"]) +
    Group("escalations", ["id", "name", "escalationCode"]) +
    Group("linterScores", ["rulesetId", "scorePercent", "complianceStatus", "computedAtIso", "schemaVersion", "maxPoints", "penaltyPoints",
                           "rawErrorFindings", "rawWarningFindings"])

  const AFTER: seq<Field> := GRAPH_PARTS + SHARED_PARTS

  function Model(depth: nat): Field {
    ProcessModel(BEFORE, AFTER, COMMON_FIELDS, TYPE_FIELDS, depth)
  }

  method BuildProcessModelSelection(depth: nat := 4) returns (field: Field)
    ensures field == Model(depth)
  {
    hide FlowNodeFragments, Scalars, Group;
    var flowNodes := BuildFlowNodeSelection(COMMON_FIELDS, TYPE_FIELDS, depth);
    var allFlowNodes := BuildFlowNodeSelection(COMMON_FIELDS, TYPE_FIELDS, 0);
    field := Nested("processModel",
                    BEFORE + [Nested("flowNodes", flowNodes.fields, flowNodes.on), Nested("allFlowNodes", allFlowNodes.fields, allFlowNodes.on)] + AFTER, []);
  }

  lemma ModestExtensions()
    ensures Modest(EXTENSIONS)
  {
    hide Scalars, Group, NestingAll;
    ModestScalars(EXTENSION);
    ModestGroup("children", EXTENSION);
    ModestConcat(Scalars(EXTENSION), Group("children", EXTENSION));
    OneGroup("children", EXTENSION);
    var nested := Nested("extensions", Scalars(EXTENSION) + Group("children", EXTENSION), []);
    NestingAllLast([], nested);
    NoFragments(0);
    NothingNests();
    NoneNoGaps();
    assert [] + [nested] == EXTENSIONS;
    assert nested.fields != [];
    assert Nesting(nested) == 0;
    assert NoGap(nested);
  }

  lemma ModestGraphParts()
    ensures Modest(GRAPH_PARTS)
  {
    hide Modest, Scalars, Group;
    var a, b, c := Group("sequenceFlows", SEQUENCE_FLOW), Group("lanes", ["id", "name", "flowNodeRefs"]), Group("dataObjects", DATA_OBJECT);
    var d, e := Group("dataObjectReferences", DATA_OBJECT_REFERENCE), Group("dataStoreReferences", DATA_STORE_REFERENCE);
    var f := Group("associations", ["id", "sourceRef", "targetRef", "associationDirection"]);
    ModestGroup("sequenceFlows", SEQUENCE_FLOW);
    ModestGroup("lanes", ["id", "name", "flowNodeRefs"]);
    ModestGroup("dataObjects", DATA_OBJECT);
    ModestGroup("dataObjectReferences", DATA_OBJECT_REFERENCE);
    ModestGroup("dataStoreReferences", DATA_STORE_REFERENCE);
    ModestGroup("associations", ["id", "sourceRef", "targetRef", "associationDirection"]);
    ModestExtensions();
    ModestConcat(a, b);
    ModestConcat(a + b, c);
    ModestConcat(a + b + c, d);
    ModestConcat(a + b + c + d, e);
    ModestConcat(a + b + c + d + e, f);
    ModestConcat(a + b + c + d + e + f, EXTENSIONS);
  }

  lemma ModestSharedParts()
    ensures Modest(SHARED_PARTS)
  {
    hide Modest, Scalars, Group;
    var a, b, c := Scalars(["definitionsId"]), Group("messages", ["id", "name"]), Group("signals", ["id", "name"]);
    var d, e := Group("errors", ["id", "name", "errorCode"]), Group("escalations", ["id", "name", "escalationCode"]);
    var scores := ["rulesetId", "scorePercent", "complianceStatus", "computedAtIso", "schemaVersion", "maxPoints", "penaltyPoints",
                   "rawErrorFindings", "rawWarningFindings"];
    ModestScalars(["definitionsId"]);
    ModestGroup("messages", ["id", "name"]);
    ModestGroup("signals", ["id", "name"]);
    ModestGroup("errors", ["id", "name", "errorCode"]);
    ModestGroup("escalations", ["id", "name", "escalationCode"]);
    ModestGroup("linterScores", scores);
    ModestConcat(a, b);
    ModestConcat(a + b, c);
    ModestConcat(a + b + c, d);
    ModestConcat(a + b + c + d, e);
    ModestConcat(a + b + c + d + e, Group("linterScores", scores));
  }

  lemma PartsModest()
    ensures Modest(BEFORE) && |BEFORE| == 7 && Modest(AFTER)
  {
    hide Modest, Scalars, Group;
    ModestScalars(["id", "name", "version", "isExecutable", "isTransactionScope", "isAdHocScope", "correlationKey"]);
    ModestGraphParts();
    ModestSharedParts();
    ModestConcat(GRAPH_PARTS, SHARED_PARTS);
  }

  /**
   The selection sent for a process model: every level adds one flow node selection to it and
   its lines to the text, and `flowNodes` nests exactly as deep as asked, `allFlowNodes` not at all.
   */
  lemma ModelLaws(depth: nat, prefix: string)
    ensures Selections(Model(depth)) == Selections(Model(0)) + depth * Selections(FlowNode(COMMON_FIELDS, TYPE_FIELDS, 0))
    ensures |Rendered(Model(depth), prefix)| == |Rendered(Model(0), prefix)| + depth * |Rendered(FlowNode(COMMON_FIELDS, TYPE_FIELDS, 0), prefix)|
    ensures |Model(depth).fields| > 8 && Model(depth).fields[7].name == "flowNodes" && Model(depth).fields[8].name == "allFlowNodes"
    ensures Nesting(Model(depth)) == Nesting(Model(depth).fields[7]) == depth + 1 && Nesting(Model(depth).fields[8]) == 0
  {
    hide Sound, FlowNode, Rendered, Weight, Nesting, TableNoGaps, TableFlat, NoGaps, NestingAll, NoGap, Scalars, Group, FlowNodeFragments;
    TypesSound();
    TablesFit();
    PartsModest();
    ModelGrows(BEFORE, AFTER, COMMON_FIELDS, TYPE_FIELDS, depth, 1);
    ModelNests(BEFORE, AFTER, COMMON_FIELDS, TYPE_FIELDS, depth);
    ModelLines(depth, prefix);
  }

  lemma ModelLines(depth: nat, prefix: string)
    ensures |Rendered(Model(depth), prefix)| == |Rendered(Model(0), prefix)| + depth * |Rendered(FlowNode(COMMON_FIELDS, TYPE_FIELDS, 0), prefix)|
  {
    hide Sound, Rendered, Weight, TableNoGaps, TableFlat, NoGaps, NestingAll, NoGap, NoGapsOn, FlowNodeFragments, Scalars, Group;
    TypesSound();
    TablesFit();
    PartsModest();
    ModelNoGaps(BEFORE, AFTER, COMMON_FIELDS, TYPE_FIELDS, depth);
    ModelNoGaps(BEFORE, AFTER, COMMON_FIELDS, TYPE_FIELDS, 0);
    FlowNodeNoGap();
    LinesWeight(Model(depth), prefix);
    LinesWeight(Model(0), prefix);
    LinesWeight(FlowNode(COMMON_FIELDS, TYPE_FIELDS, 0), prefix);
    ModelGrows(BEFORE, AFTER, COMMON_FIELDS, TYPE_FIELDS, depth, 2);
  }

  lemma FlowNodeNoGap()
    ensures NoGap(FlowNode(COMMON_FIELDS, TYPE_FIELDS, 0))
  {
    hide Sound, TableNoGaps, NoGaps, NoGapsOn, FlowNodeFragments, Scalars, Group;
    TypesSound();
    TablesFit();
    FragmentsNoGaps(COMMON_FIELDS, TYPE_FIELDS, 0);
  }
}
