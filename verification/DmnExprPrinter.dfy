/**
 The inverse of the expression parser: every form written out as section 10.2 of DMN 1.4
 lays it out. Printing an expression the parser can produce and parsing it again gives the
 same expression, so no form loses anything it was parsed into.
 */
module DmnExprPrinter {
  import opened Collections
  import opened Xml
  import opened DmnWords
  import opened DmnExpr

  // ----- printing

  function With(attrs: map<Attr, string>, name: Attr, value: Option<string>): map<Attr, string> {
    match value case None => attrs case Some(s) => attrs[name := s]
  }

  function TextElement(s: string): Node {
    Elem(TagText, map[], [Text(s)])
  }

  function TextKids(s: Option<string>): seq<Node> {
    match s case None => [] case Some(s) => [TextElement(s)]
  }

  function PrintEach<T>(items: seq<T>, render: T -> Node): seq<Node> {
    if items == [] then [] else PrintEach(items[..|items| - 1], render) + [render(items[|items| - 1])]
  }

  function PrintItem(item: InformationItem, tag: Tag): Node {
    Elem(tag, With(With(map[AttrName := item.name], AttrId, item.id), AttrTypeRef, item.typeRef), [])
  }

  function PrintItems(items: seq<InformationItem>, tag: Tag): seq<Node> {
    PrintEach(items, item => PrintItem(item, tag))
  }

  function PrintCell(text: Option<string>, tag: Tag): seq<Node> {
    if text == None then [] else [Elem(tag, map[], TextKids(text))]
  }

  function PrintInput(input: Input): Node {
    Elem(TagInput, With(map[AttrId := input.id], AttrLabel, input.caption),
         (if input.inputExpression == None && input.typeRef == None then []
          else [Elem(TagInputExpression, With(map[], AttrTypeRef, input.typeRef), TextKids(input.inputExpression))]) +
         PrintCell(input.inputValues, TagInputValues))
  }

  function OutputAttrs(output: Output): map<Attr, string> {
    With(With(With(map[AttrId := output.id], AttrLabel, output.caption), AttrName, output.name), AttrTypeRef, output.typeRef)
  }

  function PrintOutput(output: Output): Node {
    Elem(TagOutput, OutputAttrs(output),
         PrintCell(output.outputValues, TagOutputValues) + PrintCell(output.defaultOutputValue, TagDefaultOutputEntry))
  }

  function PrintEntry(entry: Entry, tag: Tag): Node {
    Elem(tag, map[AttrId := entry.id], [TextElement(entry.text)])
  }

  function PrintAnnotation(text: string): Node {
    Elem(TagAnnotationEntry, map[], [TextElement(text)])
  }

  /** A description is an element where an element can carry it, and an attribute otherwise. */
  predicate AsElement(description: Option<string>) {
    description.Some? && description.value != "" && Trimmed(description.value)
  }

  function PrintRule(rule: Rule): Node {
    Elem(TagRule, With(map[AttrId := rule.id], AttrDescription, if AsElement(rule.description) then None else rule.description),
         PrintCell(if AsElement(rule.description) then rule.description else None, TagDescription) + PrintEntries(rule))
  }

  function PrintEntries(rule: Rule): seq<Node> {
    PrintEach(rule.inputEntries, entry => PrintEntry(entry, TagInputEntry)) +
    PrintEach(rule.outputEntries, entry => PrintEntry(entry, TagOutputEntry)) +
    PrintEach(rule.annotationEntries, PrintAnnotation)
  }

  function PrintTable(table: Table): Node {
    Elem(TagDecisionTable,
         With(With(map[AttrHitPolicy := HitPolicyWord(table.hitPolicy), AttrPreferredOrientation := OrientationWord(table.orientation)],
                   AttrAggregation, if table.aggregation == None then None else Some(AggregationWord(table.aggregation.value))),
              AttrId, table.id),
         PrintEach(table.inputs, PrintInput) + PrintEach(table.outputs, PrintOutput) + PrintEach(table.rules, PrintRule))
  }

  function Print(e: Expr): Node
    decreases e, 0
  {
    match e
    case DecisionTable(table) => PrintTable(table)
    case Literal(id, text, typeRef, language) =>
      Elem(TagLiteralExpression, With(With(With(map[], AttrId, id), AttrTypeRef, typeRef), AttrExpressionLanguage, language), [TextElement(text)])
    case Context(id, entries) => Elem(TagContext, With(map[], AttrId, id), PrintSlots(entries, TagContextEntry, TagVariable))
    case Invocation(id, called, bindings) =>
      Elem(TagInvocation, With(map[], AttrId, id), PrintCalled(called) + PrintSlots(bindings, TagBinding, TagParameter))
    case List(id, elements) => Elem(TagList, With(map[], AttrId, id), PrintAll(elements))
    case Relation(id, columns, rows) => Elem(TagRelation, With(map[], AttrId, id), PrintItems(columns, TagColumn) + PrintRows(rows))
    case FunctionDefinition(id, kind, parameters, body) =>
      Elem(TagFunctionDefinition, With(map[AttrKind := kind], AttrId, id), PrintItems(parameters, TagFormalParameter) + PrintSome(body))
    case Conditional(id, x, y, z) =>
      Elem(TagConditional, With(map[], AttrId, id), PrintUnder(x, TagIf) + PrintUnder(y, TagThen) + PrintUnder(z, TagElse))
    case Filter(id, x, y) => Elem(TagFilter, With(map[], AttrId, id), PrintUnder(x, TagIn) + PrintUnder(y, TagMatch))
    case For(id, variable, x, y) =>
      Elem(TagFor, With(map[AttrIteratorVariable := variable], AttrId, id), PrintUnder(x, TagIn) + PrintUnder(y, TagReturn))
    case Quantified(id, variable, x, y) =>
      Elem(TagEvery, With(map[AttrIteratorVariable := variable], AttrId, id), PrintUnder(x, TagIn) + PrintUnder(y, TagSatisfies))
  }

  function PrintCalled(called: string): seq<Node> {
    if called == "" then [] else [Elem(TagLiteralExpression, map[], [TextElement(called)])]
  }

  function PrintSome(e: Option<Expr>): seq<Node>
    decreases e, 1
  {
    match e case None => [] case Some(e) => [Print(e)]
  }

  function PrintUnder(e: Option<Expr>, tag: Tag): seq<Node>
    decreases e, 1
  {
    match e case None => [] case Some(e) => [Elem(tag, map[], [Print(e)])]
  }

  function PrintAll(es: seq<Expr>): seq<Node>
    decreases es, 1
  {
    if es == [] then [] else PrintAll(es[..|es| - 1]) + [Print(es[|es| - 1])]
  }

  function PrintRows(rows: seq<Row>): seq<Node>
    decreases rows, 1
  {
    if rows == [] then [] else PrintRows(rows[..|rows| - 1]) + [Elem(TagRow, map[], PrintAll(rows[|rows| - 1].cells))]
  }

  function PrintSlot(slot: Slot, tag: Tag, itemTag: Tag): Node
    decreases slot, 1
  {
    Elem(tag, map[], PrintItems(if slot.item == None then [] else [slot.item.value], itemTag) + PrintSome(slot.expression))
  }

  function PrintSlots(slots: seq<Slot>, tag: Tag, itemTag: Tag): seq<Node>
    decreases slots, 1
  {
    if slots == [] then [] else PrintSlots(slots[..|slots| - 1], tag, itemTag) + [PrintSlot(slots[|slots| - 1], tag, itemTag)]
  }

  // ----- what the parser can produce

  predicate NormalInput(input: Input) {
    NormalText(input.inputExpression) && NormalText(input.inputValues)
  }

  predicate NormalOutput(output: Output) {
    NormalText(output.outputValues) && NormalText(output.defaultOutputValue)
  }

  predicate NormalEntry(entry: Entry) {
    Trimmed(entry.text)
  }

  ghost predicate Every<T>(items: seq<T>, ok: T -> bool) {
    forall i :: 0 <= i < |items| ==> ok(items[i])
  }

  ghost predicate NormalRule(rule: Rule) {
    Every(rule.inputEntries, NormalEntry) && Every(rule.outputEntries, NormalEntry) && Every(rule.annotationEntries, Trimmed)
  }

  ghost predicate NormalTable(table: Table) {
    Every(table.inputs, NormalInput) && Every(table.outputs, NormalOutput) && forall i :: 0 <= i < |table.rules| ==> NormalRule(table.rules[i])
  }

  predicate NormalKind(kind: string) {
    Upper(kind) == "FEEL" ==> kind == "FEEL"
  }

  /** Texts are trimmed, cells that may be missing are missing rather than empty, and FEEL is written in capitals. */
  ghost predicate Normal(e: Expr)
    decreases e, 0
  {
    match e
    case DecisionTable(table) => NormalTable(table)
    case Literal(_, text, _, _) => Trimmed(text)
    case Context(_, entries) => NormalSlots(entries)
    case Invocation(_, called, bindings) => Trimmed(called) && NormalSlots(bindings)
    case List(_, elements) => AllNormal(elements)
    case Relation(_, _, rows) => RowsNormal(rows)
    case FunctionDefinition(_, kind, _, body) => NormalKind(kind) && SomeNormal(body)
    case Conditional(_, x, y, z) => SomeNormal(x) && SomeNormal(y) && SomeNormal(z)
    case Filter(_, x, y) => SomeNormal(x) && SomeNormal(y)
    case For(_, _, x, y) => SomeNormal(x) && SomeNormal(y)
    case Quantified(_, _, x, y) => SomeNormal(x) && SomeNormal(y)
  }

  ghost predicate SomeNormal(e: Option<Expr>)
    decreases e, 1
  {
    e.Some? ==> Normal(e.value)
  }

  ghost predicate AllNormal(es: seq<Expr>)
    decreases es, 1
  {
    forall i :: 0 <= i < |es| ==> Normal(es[i])
  }

  ghost predicate RowsNormal(rows: seq<Row>)
    decreases rows, 1
  {
    forall i :: 0 <= i < |rows| ==> RowNormal(rows[i])
  }

  ghost predicate RowNormal(row: Row)
    decreases row, 1
  {
    AllNormal(row.cells)
  }

  ghost predicate NormalSlot(slot: Slot)
    decreases slot, 1
  {
    SomeNormal(slot.expression)
  }

  ghost predicate NormalSlots(slots: seq<Slot>)
    decreases slots, 1
  {
    forall i :: 0 <= i < |slots| ==> NormalSlot(slots[i])
  }

  // ----- reading leaves back

  lemma TextReadsBack(s: string, attrs: map<Attr, string>, tag: Tag)
    requires Trimmed(s)
    ensures EntryText(Elem(tag, attrs, [TextElement(s)])) == s
    ensures ChildText([TextElement(s)], TagText) == s
  {
    hide Trim;
    TrimTrims(s);
    assert [TextElement(s)][1..] == [];
    assert TextContent(TextElement(s)) == s;
    assert FirstText([TextElement(s)]) == None;
  }

  lemma NoTextReadsBack(attrs: map<Attr, string>, tag: Tag)
    ensures EntryText(Elem(tag, attrs, [])) == ""
  {
  }

  lemma CellReadsBack(before: seq<Node>, text: Option<string>, tag: Tag)
    requires NormalText(text) && FindElement(before, tag) == None
    ensures CellText(before + PrintCell(text, tag), tag) == text
  {
    hide EntryText;
    FindAfter(before, PrintCell(text, tag), tag);
    if text.Some? { TextReadsBack(text.value, map[], tag); }
  }

  lemma {:induction false} FindAfter(a: seq<Node>, b: seq<Node>, tag: Tag)
    ensures FindElement(a + b, tag) == if FindElement(a, tag).Some? then FindElement(a, tag) else FindElement(b, tag)
  {
    if a == [] {
      assert a + b == b;
    } else {
      FindAfter(a[1..], b, tag);
      assert (a + b)[1..] == a[1..] + b;
    }
  }

  lemma CellElsewhere(text: Option<string>, tag: Tag, other: Tag)
    requires tag != other
    ensures FindElement(PrintCell(text, tag), other) == None
  {
  }

  lemma ItemReadsBack(item: InformationItem, tag: Tag)
    ensures InformationItemOf(PrintItem(item, tag)) == item && HasTag(PrintItem(item, tag), tag)
  {
  }

  lemma InputReadsBack(input: Input)
    requires NormalInput(input)
    ensures InputOf(PrintInput(input)) == input
  {
    hide EntryText, CellText, FindElement, PrintCell, TextKids, With, GetAttr, AttrOrEmpty;
    InputAttributes(input.id, input.caption, input.typeRef);
    var a := if input.inputExpression == None && input.typeRef == None then []
             else [Elem(TagInputExpression, With(map[], AttrTypeRef, input.typeRef), TextKids(input.inputExpression))];
    var b := PrintCell(input.inputValues, TagInputValues);
    CellElsewhere(input.inputValues, TagInputValues, TagInputExpression);
    FindAfter(a, b, TagInputExpression);
    InputExpressionReadsBack(input);
    CellReadsBack(a, input.inputValues, TagInputValues);
    InputCellText(a + b, input);
  }

  lemma InputAttributes(id: string, caption: Option<string>, typeRef: Option<string>)
    ensures forall kids :: AttrOrEmpty(Elem(TagInput, With(map[AttrId := id], AttrLabel, caption), kids), AttrId) == id
    ensures forall kids :: GetAttr(Elem(TagInput, With(map[AttrId := id], AttrLabel, caption), kids), AttrLabel) == caption
    ensures forall kids :: GetAttr(Elem(TagInputExpression, With(map[], AttrTypeRef, typeRef), kids), AttrTypeRef) == typeRef
  {
  }

  lemma OutputAttributes(output: Output)
    ensures var attrs := OutputAttrs(output);
      forall kids ::
        var node := Elem(TagOutput, attrs, kids);
        && AttrOrEmpty(node, AttrId) == output.id && GetAttr(node, AttrLabel) == output.caption
        && GetAttr(node, AttrName) == output.name && GetAttr(node, AttrTypeRef) == output.typeRef
  {
  }

  lemma InputCellText(kids: seq<Node>, input: Input)
    requires NormalText(input.inputExpression)
    requires FindElement(kids, TagInputExpression) == if input.inputExpression == None && input.typeRef == None then None
                                                      else Some(Elem(TagInputExpression, With(map[], AttrTypeRef, input.typeRef), TextKids(input.inputExpression)))
    ensures CellText(kids, TagInputExpression) == input.inputExpression
  {
    hide EntryText, FindElement;
    var attrs := With(map[], AttrTypeRef, input.typeRef);
    NoTextReadsBack(attrs, TagInputExpression);
    if input.inputExpression.Some? { TextReadsBack(input.inputExpression.value, attrs, TagInputExpression); }
  }

  lemma InputExpressionReadsBack(input: Input)
    ensures var a := if input.inputExpression == None && input.typeRef == None then []
                     else [Elem(TagInputExpression, With(map[], AttrTypeRef, input.typeRef), TextKids(input.inputExpression))];
      && FindElement(a, TagInputExpression) == (if a == [] then None else Some(a[0]))
      && FindElement(a, TagInputValues) == None
  {
  }

  lemma OutputReadsBack(output: Output)
    requires NormalOutput(output)
    ensures OutputOf(PrintOutput(output)) == output
  {
    hide CellText, FindElement, PrintCell, OutputAttrs, GetAttr, AttrOrEmpty;
    OutputAttributes(output);
    var a, b := PrintCell(output.outputValues, TagOutputValues), PrintCell(output.defaultOutputValue, TagDefaultOutputEntry);
    CellElsewhere(output.outputValues, TagOutputValues, TagDefaultOutputEntry);
    CellReadsBack(a, output.defaultOutputValue, TagDefaultOutputEntry);
    FirstCellReadsBack(output.outputValues, TagOutputValues, output.defaultOutputValue, TagDefaultOutputEntry);
  }

  lemma FirstCellReadsBack(text: Option<string>, tag: Tag, other: Option<string>, otherTag: Tag)
    requires NormalText(text) && tag != otherTag
    ensures CellText(PrintCell(text, tag) + PrintCell(other, otherTag), tag) == text
  {
    hide EntryText;
    FindAfter(PrintCell(text, tag), PrintCell(other, otherTag), tag);
    CellElsewhere(other, otherTag, tag);
    CellReadsBack([], text, tag);
    assert [] + PrintCell(text, tag) == PrintCell(text, tag);
  }

  lemma EntryReadsBack(entry: Entry, tag: Tag)
    requires NormalEntry(entry)
    ensures EntryOf(PrintEntry(entry, tag)) == entry
  {
    hide EntryText;
    TextReadsBack(entry.text, map[AttrId := entry.id], tag);
  }

  // ----- reading lists back

  lemma {:induction false} EachReadsBack<T>(items: seq<T>, render: T -> Node, tag: Tag, read: Node -> T)
    requires forall i :: 0 <= i < |items| ==> HasTag(render(items[i]), tag) && read(render(items[i])) == items[i]
    ensures Each(PrintEach(items, render), tag, read) == items
  {
    hide Each, HasTag;
    EachLast([], Text(""), tag, read);
    if items == [] {
    } else {
      var rest, last := items[..|items| - 1], items[|items| - 1];
      EachReadsBack(rest, render, tag, read);
      EachLast(PrintEach(rest, render), render(last), tag, read);
    }
  }

  /** Every node carries the tag. */
  ghost predicate Tagged(kids: seq<Node>, tag: Tag) {
    forall i :: 0 <= i < |kids| ==> HasTag(kids[i], tag)
  }

  lemma {:induction false} PrintedTagged<T>(items: seq<T>, render: T -> Node, tag: Tag)
    requires forall i :: 0 <= i < |items| ==> HasTag(render(items[i]), tag)
    ensures Tagged(PrintEach(items, render), tag)
  {
    hide HasTag;
    if items == [] {
    } else {
      PrintedTagged(items[..|items| - 1], render, tag);
    }
  }

  lemma {:induction false} EachElsewhere<T>(kids: seq<Node>, other: Tag, tag: Tag, read: Node -> T)
    requires Tagged(kids, other) && tag != other
    ensures Each(kids, tag, read) == []
  {
    if kids == [] {
    } else {
      EachElsewhere(kids[..|kids| - 1], other, tag, read);
    }
  }

  lemma {:induction false} FindElsewhere(kids: seq<Node>, other: Tag, tag: Tag)
    requires Tagged(kids, other) && tag != other
    ensures FindElement(kids, tag) == None
  {
    if kids == [] {
    } else {
      FindElsewhere(kids[1..], other, tag);
    }
  }

  lemma {:induction false} BodiesElsewhere(kids: seq<Node>, other: Tag)
    requires Tagged(kids, other) && !IsForm(other)
    ensures Bodies(kids) == []
  {
    hide BodyOf;
    if kids == [] {
    } else {
      BodiesElsewhere(kids[..|kids| - 1], other);
      FormsAreBodies(kids[|kids| - 1]);
    }
  }

  lemma RuleReadsBack(rule: Rule)
    requires NormalRule(rule)
    ensures RuleOf(PrintRule(rule)) == rule
  {
    hide Each, PrintEntries, CellText, FindElement;
    var entries := PrintEntries(rule);
    var before := PrintCell(if AsElement(rule.description) then rule.description else None, TagDescription);
    EntriesReadBack(rule);
    EntriesHaveNoDescription(rule);
    DescriptionReadsBack(rule.description, entries);
    BeforeEntries(before, entries);
  }

  lemma BeforeEntries(before: seq<Node>, entries: seq<Node>)
    requires Tagged(before, TagDescription)
    ensures Each(before + entries, TagInputEntry, EntryOf) == Each(entries, TagInputEntry, EntryOf)
    ensures Each(before + entries, TagOutputEntry, EntryOf) == Each(entries, TagOutputEntry, EntryOf)
    ensures Each(before + entries, TagAnnotationEntry, EntryText) == Each(entries, TagAnnotationEntry, EntryText)
  {
    hide *;
    EachElsewhere(before, TagDescription, TagInputEntry, EntryOf);
    EachElsewhere(before, TagDescription, TagOutputEntry, EntryOf);
    EachElsewhere(before, TagDescription, TagAnnotationEntry, EntryText);
    EachConcat(before, entries, TagInputEntry, EntryOf);
    EachConcat(before, entries, TagOutputEntry, EntryOf);
    EachConcat(before, entries, TagAnnotationEntry, EntryText);
  }

  lemma DescriptionReadsBack(description: Option<string>, entries: seq<Node>)
    requires FindElement(entries, TagDescription) == None
    ensures var before := PrintCell(if AsElement(description) then description else None, TagDescription);
      && (AsElement(description) ==> CellText(before + entries, TagDescription) == description)
      && (description == None ==> CellText(before + entries, TagDescription) == None)
  {
    hide EntryText;
    var before := PrintCell(if AsElement(description) then description else None, TagDescription);
    FindAfter(before, entries, TagDescription);
    if AsElement(description) {
      CellReadsBack([], description, TagDescription);
      assert [] + before == before;
    }
  }

  lemma EntriesTagged(rule: Rule)
    ensures Tagged(PrintEach(rule.inputEntries, entry => PrintEntry(entry, TagInputEntry)), TagInputEntry)
    ensures Tagged(PrintEach(rule.outputEntries, entry => PrintEntry(entry, TagOutputEntry)), TagOutputEntry)
    ensures Tagged(PrintEach(rule.annotationEntries, PrintAnnotation), TagAnnotationEntry)
  {
    hide Tagged;
    PrintedTagged(rule.inputEntries, entry => PrintEntry(entry, TagInputEntry), TagInputEntry);
    PrintedTagged(rule.outputEntries, entry => PrintEntry(entry, TagOutputEntry), TagOutputEntry);
    PrintedTagged(rule.annotationEntries, PrintAnnotation, TagAnnotationEntry);
  }

  lemma EntriesHaveNoDescription(rule: Rule)
    ensures FindElement(PrintEntries(rule), TagDescription) == None
  {
    hide FindElement, Tagged, PrintEach;
    EntriesTagged(rule);
    var a := PrintEach(rule.inputEntries, entry => PrintEntry(entry, TagInputEntry));
    var b := PrintEach(rule.outputEntries, entry => PrintEntry(entry, TagOutputEntry));
    var c := PrintEach(rule.annotationEntries, PrintAnnotation);
    FindElsewhere(a, TagInputEntry, TagDescription);
    FindElsewhere(b, TagOutputEntry, TagDescription);
    FindElsewhere(c, TagAnnotationEntry, TagDescription);
    FindAfter(a, b, TagDescription);
    FindAfter(a + b, c, TagDescription);
  }

  /** Three lists under three tags, printed one after the other, each read back on its own. */
  lemma ThreeLists<T>(a: seq<Node>, b: seq<Node>, c: seq<Node>, ta: Tag, tb: Tag, tc: Tag, tag: Tag, read: Node -> T)
    requires Tagged(a, ta) && Tagged(b, tb) && Tagged(c, tc) && ta != tb && tb != tc && ta != tc
    ensures tag == ta ==> Each(a + b + c, tag, read) == Each(a, tag, read)
    ensures tag == tb ==> Each(a + b + c, tag, read) == Each(b, tag, read)
    ensures tag == tc ==> Each(a + b + c, tag, read) == Each(c, tag, read)
  {
    hide Each, Tagged;
    EachConcat(a, b, tag, read);
    EachConcat(a + b, c, tag, read);
    if tag != ta { EachElsewhere(a, ta, tag, read); }
    if tag != tb { EachElsewhere(b, tb, tag, read); }
    if tag != tc { EachElsewhere(c, tc, tag, read); }
  }

  lemma EntriesReadBack(rule: Rule)
    requires NormalRule(rule)
    ensures Each(PrintEntries(rule), TagInputEntry, EntryOf) == rule.inputEntries
    ensures Each(PrintEntries(rule), TagOutputEntry, EntryOf) == rule.outputEntries
    ensures Each(PrintEntries(rule), TagAnnotationEntry, EntryText) == rule.annotationEntries
  {
    hide Each, Tagged, PrintEach, EntryOf, EntryText;
    EntriesTagged(rule);
    var a := PrintEach(rule.inputEntries, entry => PrintEntry(entry, TagInputEntry));
    var b := PrintEach(rule.outputEntries, entry => PrintEntry(entry, TagOutputEntry));
    var c := PrintEach(rule.annotationEntries, PrintAnnotation);
    ThreeLists(a, b, c, TagInputEntry, TagOutputEntry, TagAnnotationEntry, TagInputEntry, EntryOf);
    ThreeLists(a, b, c, TagInputEntry, TagOutputEntry, TagAnnotationEntry, TagOutputEntry, EntryOf);
    ThreeLists(a, b, c, TagInputEntry, TagOutputEntry, TagAnnotationEntry, TagAnnotationEntry, EntryText);
    EntryListReadsBack(rule.inputEntries, TagInputEntry);
    EntryListReadsBack(rule.outputEntries, TagOutputEntry);
    AnnotationsReadBack(rule.annotationEntries);
  }

  lemma EntryListReadsBack(entries: seq<Entry>, tag: Tag)
    requires Every(entries, NormalEntry)
    ensures Each(PrintEach(entries, entry => PrintEntry(entry, tag)), tag, EntryOf) == entries
  {
    hide Each, PrintEach, EntryOf;
    var write := entry => PrintEntry(entry, tag);
    forall i | 0 <= i < |entries| ensures HasTag(write(entries[i]), tag) && EntryOf(write(entries[i])) == entries[i] {
      EntryReadsBack(entries[i], tag);
    }
    EachReadsBack(entries, write, tag, EntryOf);
  }

  lemma AnnotationsReadBack(texts: seq<string>)
    requires Every(texts, Trimmed)
    ensures Each(PrintEach(texts, PrintAnnotation), TagAnnotationEntry, EntryText) == texts
  {
    hide Each, PrintEach, EntryText;
    forall i | 0 <= i < |texts| ensures HasTag(PrintAnnotation(texts[i]), TagAnnotationEntry) && EntryText(PrintAnnotation(texts[i])) == texts[i] {
      TextReadsBack(texts[i], map[], TagAnnotationEntry);
    }
    EachReadsBack(texts, PrintAnnotation, TagAnnotationEntry, EntryText);
  }

  lemma TableReadsBack(table: Table)
    requires NormalTable(table)
    ensures TableOf(PrintTable(table)) == table
  {
    hide Each, PrintEach, ParseHitPolicy, ParseAggregation, ParseOrientation, HitPolicyWord, OrientationWord, AggregationWord, InputOf, OutputOf, RuleOf, PrintInput, PrintOutput, PrintRule, NormalTable;
    HitPolicyReadsBack(table.hitPolicy);
    OrientationReadsBack(table.orientation);
    if table.aggregation.Some? { AggregationReadsBack(table.aggregation.value); }
    ClausesReadBack(table);
    NoAggregation();
  }

  lemma NoAggregation()
    ensures ParseAggregation(None) == None
  {
  }

  lemma ClausesReadBack(table: Table)
    requires NormalTable(table)
    ensures var kids := PrintEach(table.inputs, PrintInput) + PrintEach(table.outputs, PrintOutput) + PrintEach(table.rules, PrintRule);
      && Each(kids, TagInput, InputOf) == table.inputs && Each(kids, TagOutput, OutputOf) == table.outputs && Each(kids, TagRule, RuleOf) == table.rules
  {
    hide Each, Tagged, PrintEach, InputOf, OutputOf, RuleOf, NormalInput, NormalOutput, NormalRule;
    var a, b, c := PrintEach(table.inputs, PrintInput), PrintEach(table.outputs, PrintOutput), PrintEach(table.rules, PrintRule);
    forall i | 0 <= i < |table.inputs| ensures InputOf(PrintInput(table.inputs[i])) == table.inputs[i] { InputReadsBack(table.inputs[i]); }
    forall i | 0 <= i < |table.outputs| ensures OutputOf(PrintOutput(table.outputs[i])) == table.outputs[i] { OutputReadsBack(table.outputs[i]); }
    forall i | 0 <= i < |table.rules| ensures RuleOf(PrintRule(table.rules[i])) == table.rules[i] { RuleReadsBack(table.rules[i]); }
    EachReadsBack(table.inputs, PrintInput, TagInput, InputOf);
    EachReadsBack(table.outputs, PrintOutput, TagOutput, OutputOf);
    EachReadsBack(table.rules, PrintRule, TagRule, RuleOf);
    PrintedTagged(table.inputs, PrintInput, TagInput);
    PrintedTagged(table.outputs, PrintOutput, TagOutput);
    PrintedTagged(table.rules, PrintRule, TagRule);
    ThreeLists(a, b, c, TagInput, TagOutput, TagRule, TagInput, InputOf);
    ThreeLists(a, b, c, TagInput, TagOutput, TagRule, TagOutput, OutputOf);
    ThreeLists(a, b, c, TagInput, TagOutput, TagRule, TagRule, RuleOf);
  }

  lemma ItemsReadBack(items: seq<InformationItem>, tag: Tag)
    ensures Items(PrintItems(items, tag), tag) == items && Tagged(PrintItems(items, tag), tag)
  {
    hide Each, PrintEach, InformationItemOf, PrintItem, Tagged;
    var write := item => PrintItem(item, tag);
    forall i | 0 <= i < |items| ensures HasTag(write(items[i]), tag) && InformationItemOf(write(items[i])) == items[i] {
      ItemReadsBack(items[i], tag);
    }
    EachReadsBack(items, write, tag, InformationItemOf);
    PrintedTagged(items, write, tag);
  }

  // ----- round trip

  /** No child carries a tag that is not one of the twelve forms. */
  ghost predicate OnlyForms(kids: seq<Node>) {
    forall i :: 0 <= i < |kids| ==> kids[i].Elem? && IsForm(kids[i].tag)
  }

  lemma {:induction false} EachOfForms<T>(kids: seq<Node>, tag: Tag, read: Node -> T)
    requires OnlyForms(kids) && !IsForm(tag)
    ensures Each(kids, tag, read) == []
  {
    if kids == [] {
    } else {
      EachOfForms(kids[..|kids| - 1], tag, read);
    }
  }

  lemma {:induction false} SlotsOfForms(kids: seq<Node>, tag: Tag, itemTag: Tag)
    requires OnlyForms(kids) && !IsForm(tag)
    ensures Slots(kids, tag, itemTag) == []
  {
    if kids == [] {
    } else {
      SlotsOfForms(kids[..|kids| - 1], tag, itemTag);
    }
  }

  lemma PrintsForm(e: Expr)
    ensures Print(e).Elem? && IsForm(Print(e).tag)
  {
  }

  /** Printed and parsed again, an expression is what it was. */
  lemma {:induction false} RoundTrip(e: Expr)
    requires Normal(e)
    ensures BodyOf(Print(e)) == Some(e)
    decreases e, 0
  {
    match e {
      case DecisionTable(table) => TableReadsBack(table); hide *; TableTrip(table);
      case Literal(_, text, _, _) => TextReadsBack(text, map[], TagLiteralExpression); hide *; LiteralTrip(e);
      case Context(_, entries) => SlotsTrip(entries, TagContextEntry, TagVariable); hide *; ContextTrip(e);
      case Invocation(_, called, bindings) => SlotsTrip(bindings, TagBinding, TagParameter); hide *; InvocationTrip(e);
      case List(_, elements) => AllTrip(elements); hide *; ListTrip(e);
      case Relation(_, _, rows) => RowsTrip(rows); hide *; RelationTrip(e);
      case FunctionDefinition(_, kind, _, body) => SomeTrip(body); hide *; FunctionTrip(e);
      case Conditional(_, x, y, z) => SomeTrip(x); SomeTrip(y); SomeTrip(z); hide *; ConditionalTrip(e);
      case Filter(_, x, y) => SomeTrip(x); SomeTrip(y); hide *; FilterTrip(e);
      case For(_, _, x, y) => SomeTrip(x); SomeTrip(y); hide *; ForTrip(e);
      case Quantified(_, _, x, y) => SomeTrip(x); SomeTrip(y); hide *; QuantifiedTrip(e);
    }
  }

  lemma {:induction false} SomeTrip(e: Option<Expr>)
    requires SomeNormal(e)
    ensures Trips(e)
    decreases e, 1
  {
    if e.Some? { RoundTrip(e.value); }
  }

  ghost predicate Trips(e: Option<Expr>) {
    e.Some? ==> BodyOf(Print(e.value)) == e
  }

  lemma {:induction false} AllTrip(es: seq<Expr>)
    requires AllNormal(es)
    ensures Bodies(PrintAll(es)) == es && OnlyForms(PrintAll(es))
    decreases es, 1
  {
    hide Bodies, BodyOf, Print, Normal, IsForm;
    BodiesLast([], Text(""));
    if es == [] {
    } else {
      var rest, last := es[..|es| - 1], es[|es| - 1];
      AllTrip(rest);
      assert Normal(last);
      RoundTrip(last);
      PrintsForm(last);
      BodiesLast(PrintAll(rest), Print(last));
    }
  }

  lemma {:induction false} RowsTrip(rows: seq<Row>)
    requires RowsNormal(rows)
    ensures Rows(PrintRows(rows)) == rows && Tagged(PrintRows(rows), TagRow)
    decreases rows, 1
  {
    hide Rows, Bodies, PrintAll, AllNormal;
    RowsLast([], Text(""));
    if rows == [] {
    } else {
      var rest, last := rows[..|rows| - 1], rows[|rows| - 1];
      RowsTrip(rest);
      assert RowNormal(last);
      AllTrip(last.cells);
      RowsLast(PrintRows(rest), Elem(TagRow, map[], PrintAll(last.cells)));
    }
  }

  lemma {:induction false} SlotsTrip(slots: seq<Slot>, tag: Tag, itemTag: Tag)
    requires NormalSlots(slots) && !IsForm(itemTag)
    ensures Slots(PrintSlots(slots, tag, itemTag), tag, itemTag) == slots && Tagged(PrintSlots(slots, tag, itemTag), tag)
    decreases slots, 1
  {
    hide Slots, SlotOf, PrintSlot, SomeNormal, IsForm;
    SlotsLast([], Text(""), tag, itemTag);
    if slots == [] {
    } else {
      var rest, last := slots[..|slots| - 1], slots[|slots| - 1];
      SlotsTrip(rest, tag, itemTag);
      assert NormalSlot(last);
      SlotExpressionTrips(last);
      SlotTrip(last, tag, itemTag);
      SlotsLast(PrintSlots(rest, tag, itemTag), PrintSlot(last, tag, itemTag), tag, itemTag);
    }
  }

  lemma {:induction false} SlotExpressionTrips(slot: Slot)
    requires NormalSlot(slot)
    ensures Trips(slot.expression)
    decreases slot, 1
  {
    SomeTrip(slot.expression);
  }

  lemma PrintSomeForms(e: Option<Expr>)
    requires Trips(e)
    ensures Bodies(PrintSome(e)) == (match e case None => [] case Some(e) => [e])
    ensures OnlyForms(PrintSome(e))
  {
    hide BodyOf, Print, Bodies, IsForm;
    BodiesLast([], Text(""));
    if e.Some? {
      PrintsForm(e.value);
      BodiesLast([], Print(e.value));
      assert [] + [Print(e.value)] == [Print(e.value)];
    }
  }

  lemma SlotTrip(slot: Slot, tag: Tag, itemTag: Tag)
    requires Trips(slot.expression) && !IsForm(itemTag)
    ensures SlotOf(PrintSlot(slot, tag, itemTag), itemTag) == slot && HasTag(PrintSlot(slot, tag, itemTag), tag)
  {
    hide Bodies, PrintSome, PrintItems, Items, Trips, IsForm, Tagged, OnlyForms;
    var items := if slot.item == None then [] else [slot.item.value];
    ItemsThenBody(items, itemTag, slot.expression);
  }

  /** Items followed by at most one expression: neither gets in the way of the other. */
  lemma ItemsThenBody(items: seq<InformationItem>, tag: Tag, e: Option<Expr>)
    requires Trips(e) && !IsForm(tag)
    ensures Items(PrintItems(items, tag) + PrintSome(e), tag) == items
    ensures Bodies(PrintItems(items, tag) + PrintSome(e)) == (match e case None => [] case Some(e) => [e])
  {
    hide Bodies, PrintSome, PrintItems, Each, Trips, IsForm, Tagged, OnlyForms;
    ItemsReadBack(items, tag);
    PrintSomeForms(e);
    EachOfForms(PrintSome(e), tag, InformationItemOf);
    BodiesElsewhere(PrintItems(items, tag), tag);
    EachConcat(PrintItems(items, tag), PrintSome(e), tag, InformationItemOf);
    BodiesConcat(PrintItems(items, tag), PrintSome(e));
  }

  lemma TableTrip(table: Table)
    requires TableOf(PrintTable(table)) == table
    ensures BodyOf(Print(DecisionTable(table))) == Some(DecisionTable(table))
  {
    hide TableOf;
  }

  lemma LiteralTrip(e: Expr)
    requires e.Literal? && ChildText([TextElement(e.text)], TagText) == e.text
    ensures BodyOf(Print(e)) == Some(e)
  {
    hide ChildText, TextElement;
  }

  lemma ContextTrip(e: Expr)
    requires e.Context? && Slots(PrintSlots(e.contextEntries, TagContextEntry, TagVariable), TagContextEntry, TagVariable) == e.contextEntries
    ensures BodyOf(Print(e)) == Some(e)
  {
    hide Slots, PrintSlots;
  }

  lemma InvocationTrip(e: Expr)
    requires e.Invocation? && Trimmed(e.calledFunction)
    requires Slots(PrintSlots(e.bindings, TagBinding, TagParameter), TagBinding, TagParameter) == e.bindings
    requires Tagged(PrintSlots(e.bindings, TagBinding, TagParameter), TagBinding)
    ensures BodyOf(Print(e)) == Some(e)
  {
    hide Slots, PrintSlots, PrintCalled, Bodies, Tagged, OnlyForms;
    var a, b := PrintCalled(e.calledFunction), PrintSlots(e.bindings, TagBinding, TagParameter);
    CalledTrip(e.calledFunction);
    BodiesElsewhere(b, TagBinding);
    BodiesConcat(a, b);
    SlotsOfForms(a, TagBinding, TagParameter);
    SlotsConcat(a, b, TagBinding, TagParameter);
    assert Bodies(a) + [] == Bodies(a) && [] + e.bindings == e.bindings;
  }

  lemma CalledTrip(called: string)
    requires Trimmed(called)
    ensures TextOf(Head(Bodies(PrintCalled(called)))) == called && OnlyForms(PrintCalled(called))
  {
    hide Bodies, ChildText;
    BodiesLast([], Text(""));
    if called != "" {
      var literal := Elem(TagLiteralExpression, map[], [TextElement(called)]);
      TextReadsBack(called, map[], TagLiteralExpression);
      BodiesLast([], literal);
      assert [] + [literal] == [literal];
    }
  }

  lemma ListTrip(e: Expr)
    requires e.List? && Bodies(PrintAll(e.elements)) == e.elements
    ensures BodyOf(Print(e)) == Some(e)
  {
    hide Bodies, PrintAll;
  }

  lemma RelationTrip(e: Expr)
    requires e.Relation? && Rows(PrintRows(e.rows)) == e.rows && Tagged(PrintRows(e.rows), TagRow)
    ensures BodyOf(Print(e)) == Some(e)
  {
    hide Rows, PrintRows, Each, PrintItems, Tagged;
    var a, b := PrintItems(e.columns, TagColumn), PrintRows(e.rows);
    ItemsReadBack(e.columns, TagColumn);
    EachElsewhere(b, TagRow, TagColumn, InformationItemOf);
    EachConcat(a, b, TagColumn, InformationItemOf);
    RowsElsewhere(a, TagColumn);
    RowsConcat(a, b);
    assert e.columns + [] == e.columns && [] + e.rows == e.rows;
  }

  lemma {:induction false} RowsElsewhere(kids: seq<Node>, other: Tag)
    requires Tagged(kids, other) && other != TagRow
    ensures Rows(kids) == []
  {
    hide Bodies;
    if kids == [] {
    } else {
      RowsElsewhere(kids[..|kids| - 1], other);
    }
  }

  lemma FunctionTrip(e: Expr)
    requires e.FunctionDefinition? && NormalKind(e.kind) && Trips(e.body)
    ensures BodyOf(Print(e)) == Some(e)
  {
    hide Bodies, PrintSome, PrintItems, Each, Trips, Upper;
    ItemsThenBody(e.formalParameters, TagFormalParameter, e.body);
  }

  lemma OneBody(e: Option<Expr>)
    requires Trips(e) && e.Some?
    ensures Bodies([Print(e.value)]) == [e.value]
  {
    hide BodyOf, Print, Bodies;
    BodiesLast([], Print(e.value));
    assert [] + [Print(e.value)] == [Print(e.value)];
  }

  lemma UnderAfter(kids: seq<Node>, e: Option<Expr>, tag: Tag, other: Tag)
    requires Trips(e)
    ensures Under(kids + PrintUnder(e, other), tag) == if e.Some? && tag == other then e else Under(kids, tag)
    ensures Under([], tag) == None
  {
    hide *;
    UnderLast([], Text(""), tag);
    PrintUnderMeans(e, other);
    if e.Some? {
      OneUnder(kids, e.value, tag, other);
    } else {
      assert kids + [] == kids;
    }
  }

  lemma PrintUnderMeans(e: Option<Expr>, tag: Tag)
    ensures PrintUnder(e, tag) == if e == None then [] else [Elem(tag, map[], [Print(e.value)])]
  {
    hide Print;
  }

  lemma OneUnder(kids: seq<Node>, e: Expr, tag: Tag, other: Tag)
    requires Trips(Some(e))
    ensures Under(kids + [Elem(other, map[], [Print(e)])], tag) == if tag == other then Some(e) else Under(kids, tag)
  {
    hide Under, Bodies, Print, Trips;
    OneBody(Some(e));
    UnderLast(kids, Elem(other, map[], [Print(e)]), tag);
  }

  lemma TwoParts(x: Option<Expr>, tx: Tag, y: Option<Expr>, ty: Tag)
    requires Trips(x) && Trips(y) && tx != ty
    ensures Under(PrintUnder(x, tx) + PrintUnder(y, ty), tx) == x
    ensures Under(PrintUnder(x, tx) + PrintUnder(y, ty), ty) == y
  {
    hide Under, PrintUnder, Trips;
    UnderAfter([], x, tx, tx);
    UnderAfter([], x, ty, tx);
    assert [] + PrintUnder(x, tx) == PrintUnder(x, tx);
    UnderAfter(PrintUnder(x, tx), y, tx, ty);
    UnderAfter(PrintUnder(x, tx), y, ty, ty);
  }

  lemma ThreeParts(x: Option<Expr>, y: Option<Expr>, z: Option<Expr>)
    requires Trips(x) && Trips(y) && Trips(z)
    ensures var kids := PrintUnder(x, TagIf) + PrintUnder(y, TagThen) + PrintUnder(z, TagElse);
      Under(kids, TagIf) == x && Under(kids, TagThen) == y && Under(kids, TagElse) == z
  {
    hide *;
    var two := PrintUnder(x, TagIf) + PrintUnder(y, TagThen);
    TwoParts(x, TagIf, y, TagThen);
    UnderAfter([], x, TagElse, TagIf);
    assert [] + PrintUnder(x, TagIf) == PrintUnder(x, TagIf);
    UnderAfter(PrintUnder(x, TagIf), y, TagElse, TagThen);
    UnderAfter(two, z, TagIf, TagElse);
    UnderAfter(two, z, TagThen, TagElse);
    UnderAfter(two, z, TagElse, TagElse);
  }

  lemma ConditionalTrip(e: Expr)
    requires e.Conditional? && Trips(e.ifExpression) && Trips(e.thenExpression) && Trips(e.elseExpression)
    ensures BodyOf(Print(e)) == Some(e)
  {
    hide Under, PrintUnder, Trips;
    ThreeParts(e.ifExpression, e.thenExpression, e.elseExpression);
  }

  lemma FilterTrip(e: Expr)
    requires e.Filter? && Trips(e.inExpression) && Trips(e.matchExpression)
    ensures BodyOf(Print(e)) == Some(e)
  {
    hide Under, PrintUnder, Trips;
    TwoParts(e.inExpression, TagIn, e.matchExpression, TagMatch);
  }

  lemma ForTrip(e: Expr)
    requires e.For? && Trips(e.inExpression) && Trips(e.returnExpression)
    ensures BodyOf(Print(e)) == Some(e)
  {
    hide Under, PrintUnder, Trips;
    TwoParts(e.inExpression, TagIn, e.returnExpression, TagReturn);
  }

  lemma QuantifiedTrip(e: Expr)
    requires e.Quantified? && Trips(e.inExpression) && Trips(e.satisfiesExpression)
    ensures BodyOf(Print(e)) == Some(e)
  {
    hide Under, PrintUnder, Trips;
    TwoParts(e.inExpression, TagIn, e.satisfiesExpression, TagSatisfies);
  }

  // ----- the parser produces normal expressions

  lemma CellTextNormal(kids: seq<Node>, tag: Tag)
    ensures NormalText(CellText(kids, tag))
  {
    hide TextContent, FindElement;
    match FindElement(kids, tag)
    case None =>
    case Some(cell) => EntryTextTrimmed(cell);
  }

  lemma ChildTextTrimmed(kids: seq<Node>, tag: Tag)
    ensures Trimmed(ChildText(kids, tag))
  {
    hide TextContent;
    match FindElement(kids, tag)
    case None =>
    case Some(n) => TextContentTrimmed(n);
  }

  lemma EntryTextTrimmed(node: Node)
    ensures Trimmed(EntryText(node))
  {
    hide ChildText, TextContent;
    ChildTextTrimmed(Children(node), TagText);
    TextContentTrimmed(node);
  }

  lemma {:induction false} EachNormal<T>(kids: seq<Node>, tag: Tag, read: Node -> T, ok: T -> bool)
    requires forall kid :: ok(read(kid))
    ensures Every(Each(kids, tag, read), ok)
  {
    hide HasTag;
    if kids == [] {
    } else {
      EachNormal(kids[..|kids| - 1], tag, read, ok);
    }
  }

  lemma RuleNormal(node: Node)
    ensures NormalRule(RuleOf(node))
  {
    hide Each, EntryText, CellText, Every, GetAttr;
    var kids := Children(node);
    forall kid ensures NormalEntry(EntryOf(kid)) && Trimmed(EntryText(kid)) { EntryTextTrimmed(kid); }
    EachNormal(kids, TagInputEntry, EntryOf, NormalEntry);
    EachNormal(kids, TagOutputEntry, EntryOf, NormalEntry);
    EachNormal(kids, TagAnnotationEntry, EntryText, Trimmed);
  }

  lemma {:induction false} RulesNormal(kids: seq<Node>)
    ensures forall i :: 0 <= i < |Each(kids, TagRule, RuleOf)| ==> NormalRule(Each(kids, TagRule, RuleOf)[i])
  {
    hide RuleOf, NormalRule, HasTag;
    if kids == [] {
    } else {
      RulesNormal(kids[..|kids| - 1]);
      RuleNormal(kids[|kids| - 1]);
    }
  }

  lemma TableNormal(node: Node)
    ensures NormalTable(TableOf(node))
  {
    hide Each, CellText, Every, GetAttr, FindElement, ParseHitPolicy, ParseAggregation, ParseOrientation, NormalText, RuleOf, NormalRule;
    var kids := Children(node);
    forall kid ensures NormalInput(InputOf(kid)) && NormalOutput(OutputOf(kid)) {
      CellTextNormal(Children(kid), TagInputExpression);
      CellTextNormal(Children(kid), TagInputValues);
      CellTextNormal(Children(kid), TagOutputValues);
      CellTextNormal(Children(kid), TagDefaultOutputEntry);
    }
    EachNormal(kids, TagInput, InputOf, NormalInput);
    EachNormal(kids, TagOutput, OutputOf, NormalOutput);
    RulesNormal(kids);
  }

  lemma KindNormal(raw: Option<string>)
    ensures NormalKind(KindOf(raw))
  {
    hide Upper;
    UpperOfCapitals("FEEL");
  }

  lemma {:induction false} BodyNormal(node: Node)
    ensures SomeNormal(BodyOf(node))
    decreases node, 0
  {
    hide TableOf, NormalTable, ChildText, GetAttr, Bodies, Slots, Rows, Under, NormalSlots, AllNormal, RowsNormal, NormalKind, Items, DmnExpr.KindOf, Trimmed;
    if node.Elem? && IsForm(node.tag) {
      var kids := node.kids;
      match node.tag {
        case TagDecisionTable => TableNormal(node);
        case TagLiteralExpression => ChildTextTrimmed(kids, TagText);
        case TagContext => SlotsNormal(kids, TagContextEntry, TagVariable);
        case TagInvocation => BodiesNormal(kids); CalledNormal(Bodies(kids)); SlotsNormal(kids, TagBinding, TagParameter);
        case TagList => BodiesNormal(kids);
        case TagRelation => RowsAreNormal(kids);
        case TagFunctionDefinition => BodiesNormal(kids); KindNormal(GetAttr(node, AttrKind)); EndsNormal(Bodies(kids));
        case TagConditional => UnderNormal(kids, TagIf); UnderNormal(kids, TagThen); UnderNormal(kids, TagElse);
        case TagFilter => UnderNormal(kids, TagIn); UnderNormal(kids, TagMatch);
        case TagFor => UnderNormal(kids, TagIn); UnderNormal(kids, TagReturn);
        case TagEvery | TagSome => UnderNormal(kids, TagIn); UnderNormal(kids, TagSatisfies);
      }
    } else {
      FormsAreBodies(node);
    }
  }

  lemma CalledNormal(es: seq<Expr>)
    requires AllNormal(es)
    ensures Trimmed(TextOf(Head(es)))
  {
    hide NormalSlots, RowsNormal, NormalTable;
  }

  lemma EndsNormal(es: seq<Expr>)
    requires AllNormal(es)
    ensures SomeNormal(Head(es)) && SomeNormal(Last(es))
  {
    hide Normal;
  }

  lemma {:induction false} BodiesNormal(kids: seq<Node>)
    ensures AllNormal(Bodies(kids))
    decreases kids, 0
  {
    hide BodyOf, Normal;
    if kids == [] {
    } else {
      BodiesNormal(kids[..|kids| - 1]);
      BodyNormal(kids[|kids| - 1]);
    }
  }

  lemma {:induction false} RowsAreNormal(kids: seq<Node>)
    ensures RowsNormal(Rows(kids))
    decreases kids, 0
  {
    hide Bodies, AllNormal;
    if kids == [] {
    } else {
      RowsAreNormal(kids[..|kids| - 1]);
      if HasTag(kids[|kids| - 1], TagRow) { BodiesNormal(kids[|kids| - 1].kids); }
    }
  }

  lemma {:induction false} SlotsNormal(kids: seq<Node>, tag: Tag, itemTag: Tag)
    ensures NormalSlots(Slots(kids, tag, itemTag))
    decreases kids, 0
  {
    hide Bodies, AllNormal, Items, SomeNormal;
    if kids == [] {
    } else {
      SlotsNormal(kids[..|kids| - 1], tag, itemTag);
      if HasTag(kids[|kids| - 1], tag) {
        BodiesNormal(kids[|kids| - 1].kids);
        EndsNormal(Bodies(kids[|kids| - 1].kids));
      }
    }
  }

  lemma {:induction false} UnderNormal(kids: seq<Node>, tag: Tag)
    ensures SomeNormal(Under(kids, tag))
    decreases kids, 0
  {
    hide Bodies, AllNormal, Normal;
    if kids == [] {
    } else {
      UnderNormal(kids[..|kids| - 1], tag);
      if HasTag(kids[|kids| - 1], tag) {
        BodiesNormal(kids[|kids| - 1].kids);
        EndsNormal(Bodies(kids[|kids| - 1].kids));
      }
    }
  }

  // ----- the two together

  /** Parsing, printing and parsing again is parsing, for every tree. */
  lemma ParsePrintParse(node: Node)
    ensures BodyOf(node).Some? ==> BodyOf(Print(BodyOf(node).value)) == BodyOf(node)
  {
    hide BodyOf, Print, Normal;
    BodyNormal(node);
    if BodyOf(node).Some? { RoundTrip(BodyOf(node).value); }
  }

  /** The expressions the parser can produce are exactly the normal ones. */
  lemma NormalIffProducible(e: Expr)
    ensures Normal(e) <==> exists node :: BodyOf(node) == Some(e)
  {
    hide BodyOf, Print, Normal;
    if Normal(e) { RoundTrip(e); }
    if node :| BodyOf(node) == Some(e) { BodyNormal(node); }
  }
}
