/**
 What the parser reads off single elements, said in terms of their tags, attributes and
 texts: the kind and the references of a flow node, the ends of a sequence flow.
 */
module BpmnSays {
  import opened Collections
  import opened Xml
  import opened Numerals
  import opened BpmnModel
  import opened BpmnParser

  // ----- kinds

  /** The element each kind is named after. */
  function TagOf(kind: FlowNodeKind): Tag {
    match kind
    case StartEvent => TagStartEvent
    case EndEvent => TagEndEvent
    case IntermediateCatchEvent => TagIntermediateCatchEvent
    case IntermediateThrowEvent => TagIntermediateThrowEvent
    case BoundaryEvent => TagBoundaryEvent
    case Task => TagTask
    case UserTask => TagUserTask
    case ServiceTask => TagServiceTask
    case ManualTask => TagManualTask
    case ScriptTask => TagScriptTask
    case BusinessRuleTask => TagBusinessRuleTask
    case SendTask => TagSendTask
    case ReceiveTask => TagReceiveTask
    case CallActivity => TagCallActivity
    case SubProcess => TagSubProcess
    case ExclusiveGateway => TagExclusiveGateway
    case ParallelGateway => TagParallelGateway
    case InclusiveGateway => TagInclusiveGateway
    case EventBasedGateway => TagEventBasedGateway
    case ComplexGateway => TagComplexGateway
  }

  /** Transactions and ad-hoc subprocesses are subprocesses too. */
  ghost predicate IsKind(kind: FlowNodeKind, tag: Tag) {
    tag == TagOf(kind) || (kind == SubProcess && (tag == TagTransaction || tag == TagAdHocSubProcess))
  }

  /** Every kind's own element is of that kind, and no other elements are flow nodes. */
  lemma KindsAre(tag: Tag, kind: FlowNodeKind)
    ensures KindOf(tag) == Some(kind) <==> IsKind(kind, tag)
  {
    OwnKind(kind);
    OwnTag(tag, kind);
    MoreSubProcesses();
    hide KindOf, TagOf;
  }

  lemma OwnKind(kind: FlowNodeKind)
    ensures KindOf(TagOf(kind)) == Some(kind)
  {
  }

  lemma OwnTag(tag: Tag, kind: FlowNodeKind)
    ensures KindOf(tag) == Some(kind) ==> IsKind(kind, tag)
  {
    hide KindOf;
    EventAndTaskTags(tag);
    OtherTags(tag);
    SubProcessTags(tag);
  }

  lemma EventAndTaskTags(tag: Tag)
    ensures KindOf(tag) == Some(StartEvent) ==> tag == TagStartEvent
    ensures KindOf(tag) == Some(EndEvent) ==> tag == TagEndEvent
    ensures KindOf(tag) == Some(IntermediateCatchEvent) ==> tag == TagIntermediateCatchEvent
    ensures KindOf(tag) == Some(IntermediateThrowEvent) ==> tag == TagIntermediateThrowEvent
    ensures KindOf(tag) == Some(BoundaryEvent) ==> tag == TagBoundaryEvent
    ensures KindOf(tag) == Some(Task) ==> tag == TagTask
    ensures KindOf(tag) == Some(UserTask) ==> tag == TagUserTask
    ensures KindOf(tag) == Some(ServiceTask) ==> tag == TagServiceTask
    ensures KindOf(tag) == Some(ManualTask) ==> tag == TagManualTask
    ensures KindOf(tag) == Some(ScriptTask) ==> tag == TagScriptTask
  {
  }

  lemma OtherTags(tag: Tag)
    ensures KindOf(tag) == Some(BusinessRuleTask) ==> tag == TagBusinessRuleTask
    ensures KindOf(tag) == Some(SendTask) ==> tag == TagSendTask
    ensures KindOf(tag) == Some(ReceiveTask) ==> tag == TagReceiveTask
    ensures KindOf(tag) == Some(CallActivity) ==> tag == TagCallActivity
    ensures KindOf(tag) == Some(ExclusiveGateway) ==> tag == TagExclusiveGateway
    ensures KindOf(tag) == Some(ParallelGateway) ==> tag == TagParallelGateway
    ensures KindOf(tag) == Some(InclusiveGateway) ==> tag == TagInclusiveGateway
    ensures KindOf(tag) == Some(EventBasedGateway) ==> tag == TagEventBasedGateway
    ensures KindOf(tag) == Some(ComplexGateway) ==> tag == TagComplexGateway
  {
  }

  lemma SubProcessTags(tag: Tag)
    ensures KindOf(tag) == Some(SubProcess) ==> tag in {TagSubProcess, TagTransaction, TagAdHocSubProcess}
  {
  }

  lemma MoreSubProcesses()
    ensures KindOf(TagTransaction) == KindOf(TagAdHocSubProcess) == Some(SubProcess)
  {
  }

  /** An element is a flow node by its tag alone. */
  lemma FlowElementsAre(e: Node)
    ensures IsFlowElement(e) <==> e.Elem? && exists kind :: IsKind(kind, e.tag)
  {
    if e.Elem? {
      if kind :| IsKind(kind, e.tag) { KindsAre(e.tag, kind); }
      if IsFlowElement(e) { KindsAre(e.tag, KindOf(e.tag).value); }
      hide KindOf, IsKind;
    }
  }

  // ----- references in reverse

  predicate IsReference(kid: Node, tag: Tag) {
    HasTag(kid, tag) && TextContent(kid) != ""
  }

  /** `at` lists, last first, the children that hold a reference. */
  ghost predicate ListsReferences(at: seq<nat>, kids: seq<Node>, tag: Tag) {
    && (forall k, l :: 0 <= k < l < |at| ==> at[l] < at[k])
    && (forall i :: 0 <= i < |kids| ==> (i in at <==> IsReference(kids[i], tag)))
    && (forall k :: 0 <= k < |at| ==> at[k] < |kids|)
  }

  /** The listed children hold these texts. */
  ghost predicate HoldTexts(at: seq<nat>, kids: seq<Node>, texts: seq<string>) {
    |at| == |texts| && forall k :: 0 <= k < |at| ==> at[k] < |kids| && texts[k] == TextContent(kids[at[k]])
  }

  lemma ListMore(at: seq<nat>, rest: seq<Node>, last: Node, tag: Tag)
    requires ListsReferences(at, rest, tag)
    ensures ListsReferences(if IsReference(last, tag) then [|rest|] + at else at, rest + [last], tag)
  {
    hide IsReference;
    var kids := rest + [last];
    var at' := if IsReference(last, tag) then [|rest|] + at else at;
    forall i | 0 <= i < |kids| ensures i in at' <==> IsReference(kids[i], tag) {
      assert i in at' <==> i in at || (i == |rest| && IsReference(last, tag));
      if i < |rest| { assert kids[i] == rest[i]; } else { assert kids[i] == last && i !in at; }
    }
  }

  lemma HoldMore(at: seq<nat>, rest: seq<Node>, last: Node, texts: seq<string>)
    requires HoldTexts(at, rest, texts)
    ensures HoldTexts(at, rest + [last], texts) && HoldTexts([|rest|] + at, rest + [last], [TextContent(last)] + texts)
  {
    hide TextContent;
    var kids := rest + [last];
    forall k | 0 <= k < |at| ensures at[k] < |kids| && texts[k] == TextContent(kids[at[k]]) {
      assert kids[at[k]] == rest[at[k]];
    }
  }

  /** Incoming and outgoing references are those of the document, the empty ones left out, in reverse order. */
  lemma {:induction false} ReferencesInReverse(kids: seq<Node>, tag: Tag) returns (at: seq<nat>)
    ensures ListsReferences(at, kids, tag) && HoldTexts(at, kids, Reverse(RefTexts(kids, tag)))
  {
    hide TextContent, IsReference, RefTexts, Reverse;
    if kids == [] {
      at := [];
      ReverseTexts([], Text(""), tag);
    } else {
      hide ListsReferences, HoldTexts;
      var rest, last := kids[..|kids| - 1], kids[|kids| - 1];
      assert kids == rest + [last];
      ReverseTexts(rest, last, tag);
      at := ReferencesInReverse(rest, tag);
      ListMore(at, rest, last, tag);
      HoldMore(at, rest, last, Reverse(RefTexts(rest, tag)));
      if IsReference(last, tag) {
        at := [|rest|] + at;
      } else {
        assert [] + Reverse(RefTexts(rest, tag)) == Reverse(RefTexts(rest, tag));
      }
    }
  }

  lemma ReverseTexts(kids: seq<Node>, kid: Node, tag: Tag)
    ensures Reverse(RefTexts(kids + [kid], tag)) == (if IsReference(kid, tag) then [TextContent(kid)] else []) + Reverse(RefTexts(kids, tag))
    ensures Reverse(RefTexts([], tag)) == []
  {
    hide TextContent, RefTexts, HasTag;
    RefTextsLast(kids, kid, tag);
    var texts := RefTexts(kids, tag);
    if IsReference(kid, tag) {
      ReverseLast(texts, TextContent(kid));
    } else {
      assert texts + [] == texts;
    }
  }

  // ----- heads and flows

  /** The last non-empty text of a child with the tag. */
  ghost predicate IsLastText(kids: seq<Node>, tag: Tag, text: Option<string>) {
    match text
    case None => forall i :: 0 <= i < |kids| ==> !IsReference(kids[i], tag)
    case Some(s) => exists i: nat :: IsLastReference(kids, i, tag) && TextContent(kids[i]) == s
  }

  ghost predicate IsLastReference(kids: seq<Node>, i: nat, tag: Tag) {
    i < |kids| && IsReference(kids[i], tag) && forall j :: i < j < |kids| ==> !IsReference(kids[j], tag)
  }

  lemma LastReferenceMore(rest: seq<Node>, last: Node, i: nat, tag: Tag)
    ensures IsReference(last, tag) ==> IsLastReference(rest + [last], |rest|, tag)
    ensures !IsReference(last, tag) && IsLastReference(rest, i, tag) ==> IsLastReference(rest + [last], i, tag) && (rest + [last])[i] == rest[i]
  {
    hide IsReference;
  }

  lemma LastTextMore(rest: seq<Node>, last: Node, tag: Tag, text: Option<string>)
    requires IsLastText(rest, tag, text)
    ensures IsLastText(rest + [last], tag, if IsReference(last, tag) then Some(TextContent(last)) else text)
  {
    hide TextContent, IsReference;
    var kids := rest + [last];
    if IsReference(last, tag) {
      LastReferenceMore(rest, last, 0, tag);
    } else if text.Some? {
      var i: nat :| IsLastReference(rest, i, tag) && TextContent(rest[i]) == text.value;
      LastReferenceMore(rest, last, i, tag);
      hide IsLastReference;
      assert IsLastReference(kids, i, tag) && TextContent(kids[i]) == text.value;
    } else {
      assert forall i :: 0 <= i < |rest| ==> kids[i] == rest[i];
    }
  }

  lemma {:induction false} LastTextIsLast(kids: seq<Node>, tag: Tag)
    ensures var texts := RefTexts(kids, tag); IsLastText(kids, tag, if texts == [] then None else Some(texts[|texts| - 1]))
  {
    hide TextContent, IsReference, IsLastReference, RefTexts;
    RefTextsLast([], Text(""), tag);
    if kids == [] {
    } else {
      hide IsLastText;
      var rest, last := kids[..|kids| - 1], kids[|kids| - 1];
      assert kids == rest + [last];
      LastTextIsLast(rest, tag);
      RefTextsLast(rest, last, tag);
      ReferenceMeans(last, tag);
      var texts := RefTexts(rest, tag);
      LastTextMore(rest, last, tag, if texts == [] then None else Some(texts[|texts| - 1]));
    }
  }

  lemma ReferenceMeans(kid: Node, tag: Tag)
    ensures IsReference(kid, tag) <==> HasTag(kid, tag) && TextContent(kid) != ""
  {
  }

  /** These are the references with the tag, last first. */
  ghost predicate ListsInReverse(texts: seq<string>, kids: seq<Node>, tag: Tag) {
    exists at :: ListsReferences(at, kids, tag) && HoldTexts(at, kids, texts)
  }

  /** The head of a flow node says what its element does. */
  ghost predicate SaysHead(head: Head, e: Node) {
    && e.Elem? && IsKind(head.kind, e.tag)
    && head.id == AttrOrEmpty(e, AttrId) && head.name == GetAttr(e, AttrName)
    && ListsInReverse(head.incoming, e.kids, TagIncoming) && ListsInReverse(head.outgoing, e.kids, TagOutgoing)
    && head.isForCompensation == (GetAttr(e, AttrIsForCompensation) == Some("true"))
    && IsLastText(e.kids, TagDocumentation, head.documentation)
  }

  lemma HeadSays(e: Node)
    requires IsFlowElement(e)
    ensures SaysHead(HeadOf(e, KindOf(e.tag).value), e)
  {
    hide RefTexts, Reverse, ListsReferences, HoldTexts, IsLastText, GetAttr, AttrOrEmpty;
    KindsAre(e.tag, KindOf(e.tag).value);
    var incoming := ReferencesInReverse(e.kids, TagIncoming);
    var outgoing := ReferencesInReverse(e.kids, TagOutgoing);
    LastTextIsLast(e.kids, TagDocumentation);
  }

  /** The text of the first child with the tag, missing where it is empty or there is no such child. */
  ghost predicate SaysChild(text: Option<string>, kids: seq<Node>, tag: Tag) {
    match FindElement(kids, tag)
    case None => text == None
    case Some(c) => text == if TextContent(c) == "" then None else Some(TextContent(c))
  }

  lemma ChildSays(kids: seq<Node>, tag: Tag)
    ensures SaysChild(NonEmpty(ChildText(kids, tag)), kids, tag)
  {
    hide TextContent, FindElement;
  }

  /** A sequence flow says what its element does, defaults aside. */
  ghost predicate SaysFlow(flow: SequenceFlow, e: Node) {
    && HasTag(e, TagSequenceFlow)
    && flow.id == AttrOrEmpty(e, AttrId) && flow.name == GetAttr(e, AttrName)
    && flow.sourceRef == AttrOrEmpty(e, AttrSourceRef) && flow.targetRef == AttrOrEmpty(e, AttrTargetRef)
    && SaysChild(flow.condition, e.kids, TagConditionExpression)
  }

  lemma FlowSays(e: Node)
    requires HasTag(e, TagSequenceFlow)
    ensures SaysFlow(SequenceFlowOf(e), e) && !SequenceFlowOf(e).isDefault
  {
    hide SaysChild, ChildText;
    ChildSays(e.kids, TagConditionExpression);
  }

  // ----- data associations

  function DataTag(prefix: Prefix): Tag {
    if prefix == Dia then TagDataInputAssociation else TagDataOutputAssociation
  }

  /** A made-up id tells its direction and its number. */
  ghost predicate IsMadeUp(id: AssociationId, prefix: Prefix) {
    id.Auto? && IdText(id) == (if prefix == Dia then "dia_auto_" else "doa_auto_") + Decimal(id.n)
  }

  /** A data association says what its element does; its id is made up exactly where the element has none. */
  ghost predicate SaysData(a: DataAssociation, e: Node, prefix: Prefix) {
    && HasTag(e, DataTag(prefix))
    && (match GetAttr(e, AttrId) case Some(id) => a.id == Given(id) case None => IsMadeUp(a.id, prefix))
    && SaysChild(a.sourceRef, e.kids, TagSourceRef) && SaysChild(a.targetRef, e.kids, TagTargetRef)
    && SaysChild(a.valueExpression, e.kids, TagTransformation)
  }

  lemma DataSays(e: Node, prefix: Prefix, count: nat)
    requires PrefixOf(e) == Some(prefix)
    ensures SaysData(DataAssociationOf(e, prefix, count), e, prefix)
  {
    hide SaysChild, ChildText, Decimal;
    PrefixMeans(e);
    ChildSays(e.kids, TagSourceRef);
    ChildSays(e.kids, TagTargetRef);
    ChildSays(e.kids, TagTransformation);
  }

  /** `at` lists, last first, the children with the tag. */
  ghost predicate ListsTag(at: seq<nat>, kids: seq<Node>, tag: Tag) {
    && (forall k, l :: 0 <= k < l < |at| ==> at[l] < at[k])
    && (forall i :: 0 <= i < |kids| ==> (i in at <==> HasTag(kids[i], tag)))
    && (forall k :: 0 <= k < |at| ==> at[k] < |kids|)
  }

  ghost predicate HoldData(at: seq<nat>, kids: seq<Node>, list: seq<DataAssociation>, prefix: Prefix) {
    |at| == |list| && forall k :: 0 <= k < |at| ==> at[k] < |kids| && SaysData(list[k], kids[at[k]], prefix)
  }

  /** One data association for each element of its direction, last first. */
  ghost predicate DataInReverse(list: seq<DataAssociation>, kids: seq<Node>, prefix: Prefix) {
    exists at :: ListsTag(at, kids, DataTag(prefix)) && HoldData(at, kids, list, prefix)
  }

  lemma HoldDataMore(at: seq<nat>, rest: seq<Node>, last: Node, list: seq<DataAssociation>, prefix: Prefix)
    requires HoldData(at, rest, list, prefix)
    ensures HoldData(at, rest + [last], list, prefix)
    ensures forall a :: SaysData(a, last, prefix) ==> HoldData([|rest|] + at, rest + [last], [a] + list, prefix)
  {
    hide SaysData;
    var kids := rest + [last];
    forall k | 0 <= k < |at| ensures at[k] < |kids| && SaysData(list[k], kids[at[k]], prefix) {
      assert kids[at[k]] == rest[at[k]];
    }
  }

  lemma TagMore(at: seq<nat>, rest: seq<Node>, last: Node, tag: Tag)
    requires ListsTag(at, rest, tag)
    ensures ListsTag(if HasTag(last, tag) then [|rest|] + at else at, rest + [last], tag)
  {
    hide HasTag;
    var kids := rest + [last];
    var at' := if HasTag(last, tag) then [|rest|] + at else at;
    forall i | 0 <= i < |kids| ensures i in at' <==> HasTag(kids[i], tag) {
      assert i in at' <==> i in at || (i == |rest| && HasTag(last, tag));
      if i < |rest| { assert kids[i] == rest[i]; } else { assert kids[i] == last && i !in at; }
    }
  }

  /** Input and output associations are those of the document, each of its own direction, in reverse order. */
  lemma AssociationsInReverse(kids: seq<Node>, prefix: Prefix, count: nat)
    ensures DataInReverse(Reverse(DataAssociations(kids, prefix, count)), kids, prefix)
  {
    hide DataAssociations, Reverse, ListsTag, HoldData;
    var at := DataListed(kids, prefix, count);
  }

  lemma {:induction false} DataListed(kids: seq<Node>, prefix: Prefix, count: nat) returns (at: seq<nat>)
    ensures ListsTag(at, kids, DataTag(prefix)) && HoldData(at, kids, Reverse(DataAssociations(kids, prefix, count)), prefix)
  {
    hide DataAssociations, DataAssociationOf, AssociationCount, PrefixOf, ListsTag, HoldData, SaysData, HasTag, Reverse;
    AssociationsLast([], Text(""), count);
    if kids == [] {
      at := [];
      NoData(prefix);
    } else {
      var rest, last := kids[..|kids| - 1], kids[|kids| - 1];
      assert kids == rest + [last];
      at := DataListed(rest, prefix, count);
      AssociationsLast(rest, last, count);
      PrefixMeans(last);
      var before := DataAssociations(rest, prefix, count);
      HoldDataMore(at, rest, last, Reverse(before), prefix);
      TagMore(at, rest, last, DataTag(prefix));
      if PrefixOf(last) == Some(prefix) {
        var a := DataAssociationOf(last, prefix, count + AssociationCount(rest) + 1);
        DataSays(last, prefix, count + AssociationCount(rest) + 1);
        ReverseLast(before, a);
        at := [|rest|] + at;
      } else {
        OneTag(last);
        assert before + [] == before;
      }
    }
  }

  lemma ReverseLast<T>(s: seq<T>, x: T)
    ensures Reverse(s + [x]) == [x] + Reverse(s)
  {
    assert (s + [x])[..|s|] == s;
  }

  lemma OneTag(e: Node)
    ensures !(HasTag(e, TagDataInputAssociation) && HasTag(e, TagDataOutputAssociation))
  {
  }

  lemma NoData(prefix: Prefix)
    ensures ListsTag([], [], DataTag(prefix)) && HoldData([], [], Reverse([]), prefix)
  {
  }
}
