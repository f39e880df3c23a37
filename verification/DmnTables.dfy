/**
 What a decision table says (packages/js/sdk/src/dmn/parser.ts, `parseDecisionTable` and
 below), cell by cell, in terms of its elements, attributes and texts.
 */
module DmnTables {
  import opened Collections
  import opened Xml
  import opened DmnWords
  import opened DmnExpr

  function KidsWith(kids: seq<Node>, tag: Tag): seq<Node> {
    if kids == [] then []
    else KidsWith(kids[..|kids| - 1], tag) + if HasTag(kids[|kids| - 1], tag) then [kids[|kids| - 1]] else []
  }

  lemma {:induction false} EachOfKids<T>(kids: seq<Node>, tag: Tag, read: Node -> T)
    ensures |Each(kids, tag, read)| == |KidsWith(kids, tag)|
    ensures forall i :: 0 <= i < |KidsWith(kids, tag)| ==> HasTag(KidsWith(kids, tag)[i], tag) && Each(kids, tag, read)[i] == read(KidsWith(kids, tag)[i])
  {
    hide HasTag;
    if kids == [] {
    } else {
      EachOfKids(kids[..|kids| - 1], tag, read);
    }
  }

  // ----- texts of cells

  /** The text of the first `text` child, unless it is empty or there is none: then the element's own. */
  ghost predicate SaysText(text: string, cell: Node) {
    match FindElement(Children(cell), TagText)
    case Some(inner) => text == if TextContent(inner) != "" then TextContent(inner) else TextContent(cell)
    case None => text == TextContent(cell)
  }

  /** The text of the first element with the tag; none where there is no such element or no text in it. */
  ghost predicate SaysCell(text: Option<string>, kids: seq<Node>, tag: Tag) {
    match FindElement(kids, tag)
    case None => text == None
    case Some(cell) => if text == None then SaysText("", cell) else text.value != "" && SaysText(text.value, cell)
  }

  lemma EntrySays(cell: Node)
    ensures SaysText(EntryText(cell), cell)
  {
    hide TextContent;
  }

  lemma CellSays(kids: seq<Node>, tag: Tag)
    ensures SaysCell(CellText(kids, tag), kids, tag)
  {
    hide EntryText, SaysText;
    if FindElement(kids, tag).Some? { EntrySays(FindElement(kids, tag).value); }
  }

  // ----- clauses and rules

  ghost predicate SaysInput(input: Input, e: Node) {
    && input.id == AttrOrEmpty(e, AttrId) && input.caption == GetAttr(e, AttrLabel)
    && SaysCell(input.inputExpression, Children(e), TagInputExpression) && SaysCell(input.inputValues, Children(e), TagInputValues)
    && match FindElement(Children(e), TagInputExpression)
       case None => input.typeRef == None
       case Some(expression) => input.typeRef == GetAttr(expression, AttrTypeRef)
  }

  ghost predicate SaysOutput(output: Output, e: Node) {
    && output.id == AttrOrEmpty(e, AttrId) && output.caption == GetAttr(e, AttrLabel)
    && output.name == GetAttr(e, AttrName) && output.typeRef == GetAttr(e, AttrTypeRef)
    && SaysCell(output.outputValues, Children(e), TagOutputValues) && SaysCell(output.defaultOutputValue, Children(e), TagDefaultOutputEntry)
  }

  ghost predicate SaysEntry(entry: Entry, e: Node) {
    entry.id == AttrOrEmpty(e, AttrId) && SaysText(entry.text, e)
  }

  ghost predicate SayEntries(entries: seq<Entry>, elements: seq<Node>) {
    |entries| == |elements| && forall i :: 0 <= i < |entries| ==> SaysEntry(entries[i], elements[i])
  }

  /** The description is the attribute, or without one the text of the first description element. */
  ghost predicate SaysRule(rule: Rule, e: Node) {
    var kids := Children(e);
    && rule.id == AttrOrEmpty(e, AttrId)
    && (if GetAttr(e, AttrDescription).Some? then rule.description == GetAttr(e, AttrDescription) else SaysCell(rule.description, kids, TagDescription))
    && SayEntries(rule.inputEntries, KidsWith(kids, TagInputEntry)) && SayEntries(rule.outputEntries, KidsWith(kids, TagOutputEntry))
    && |rule.annotationEntries| == |KidsWith(kids, TagAnnotationEntry)|
    && forall i :: 0 <= i < |rule.annotationEntries| ==> SaysText(rule.annotationEntries[i], KidsWith(kids, TagAnnotationEntry)[i])
  }

  ghost predicate SaysTable(table: Table, e: Node) {
    var kids := Children(e);
    && table.id == GetAttr(e, AttrId)
    && |table.inputs| == |KidsWith(kids, TagInput)|
    && (forall i :: 0 <= i < |table.inputs| ==> SaysInput(table.inputs[i], KidsWith(kids, TagInput)[i]))
    && |table.outputs| == |KidsWith(kids, TagOutput)|
    && (forall i :: 0 <= i < |table.outputs| ==> SaysOutput(table.outputs[i], KidsWith(kids, TagOutput)[i]))
    && |table.rules| == |KidsWith(kids, TagRule)|
    && forall i :: 0 <= i < |table.rules| ==> SaysRule(table.rules[i], KidsWith(kids, TagRule)[i])
  }

  lemma InputSays(e: Node)
    ensures SaysInput(InputOf(e), e)
  {
    hide CellText, SaysCell, FindElement;
    CellSays(Children(e), TagInputExpression);
    CellSays(Children(e), TagInputValues);
  }

  lemma OutputSays(e: Node)
    ensures SaysOutput(OutputOf(e), e)
  {
    hide CellText, SaysCell;
    CellSays(Children(e), TagOutputValues);
    CellSays(Children(e), TagDefaultOutputEntry);
  }

  lemma EntriesSay(kids: seq<Node>, tag: Tag)
    ensures SayEntries(Each(kids, tag, EntryOf), KidsWith(kids, tag))
  {
    hide EntryText, SaysText, AttrOrEmpty, Each, KidsWith;
    EachOfKids(kids, tag, EntryOf);
    forall i | 0 <= i < |KidsWith(kids, tag)| ensures SaysEntry(Each(kids, tag, EntryOf)[i], KidsWith(kids, tag)[i]) {
      EntrySays(KidsWith(kids, tag)[i]);
    }
  }

  lemma RuleSays(e: Node)
    ensures SaysRule(RuleOf(e), e)
  {
    hide EntryText, SaysText, AttrOrEmpty, GetAttr, Each, KidsWith, CellText, SaysCell, SayEntries;
    var kids := Children(e);
    CellSays(kids, TagDescription);
    EntriesSay(kids, TagInputEntry);
    EntriesSay(kids, TagOutputEntry);
    EachOfKids(kids, TagAnnotationEntry, EntryText);
    forall i | 0 <= i < |KidsWith(kids, TagAnnotationEntry)|
      ensures SaysText(Each(kids, TagAnnotationEntry, EntryText)[i], KidsWith(kids, TagAnnotationEntry)[i])
    {
      EntrySays(KidsWith(kids, TagAnnotationEntry)[i]);
    }
  }

  /** Every clause and rule of a parsed table, cell by cell, says what its element says, and there are no others. */
  lemma TableSays(e: Node)
    requires HasTag(e, TagDecisionTable)
    ensures BodyOf(e) == Some(DecisionTable(TableOf(e))) && SaysTable(TableOf(e), e)
  {
    TableMeans(e);
    hide BodyOf, InputOf, OutputOf, RuleOf, SaysInput, SaysOutput, SaysRule, GetAttr, Each, KidsWith, ParseHitPolicy, ParseAggregation, ParseOrientation;
    var kids := Children(e);
    EachOfKids(kids, TagInput, InputOf);
    EachOfKids(kids, TagOutput, OutputOf);
    EachOfKids(kids, TagRule, RuleOf);
    forall i | 0 <= i < |KidsWith(kids, TagInput)| ensures SaysInput(Each(kids, TagInput, InputOf)[i], KidsWith(kids, TagInput)[i]) {
      InputSays(KidsWith(kids, TagInput)[i]);
    }
    forall i | 0 <= i < |KidsWith(kids, TagOutput)| ensures SaysOutput(Each(kids, TagOutput, OutputOf)[i], KidsWith(kids, TagOutput)[i]) {
      OutputSays(KidsWith(kids, TagOutput)[i]);
    }
    forall i | 0 <= i < |KidsWith(kids, TagRule)| ensures SaysRule(Each(kids, TagRule, RuleOf)[i], KidsWith(kids, TagRule)[i]) {
      RuleSays(KidsWith(kids, TagRule)[i]);
    }
  }

  lemma TableMeans(e: Node)
    requires HasTag(e, TagDecisionTable)
    ensures BodyOf(e) == Some(DecisionTable(TableOf(e)))
  {
    hide TableOf;
  }
}
