/**
 The expression parser as it runs: one method per form, each with the loop of its
 counterpart in packages/js/sdk/src/dmn/parser.ts, pushing onto lists and overwriting
 what an earlier child had set.
 */
module DmnExprParser {
  import opened Collections
  import opened Xml
  import opened DmnWords
  import opened DmnExpr

  lemma NoForm(kid: Node, tag: Tag)
    requires HasTag(kid, tag) && !IsForm(tag)
    ensures BodyOf(kid) == None
  {
    FormsAreBodies(kid);
  }

  method ParseDecisionTable(node: Node) returns (table: Table)
    ensures table == TableOf(node)
  {
    hide ParseHitPolicy, ParseAggregation, ParseOrientation, Each, InputOf, OutputOf, RuleOf, GetAttr;
    var inputs, outputs, rules := ReadClauses(Children(node));
    table := Table(GetAttr(node, AttrId), ParseHitPolicy(GetAttr(node, AttrHitPolicy)), ParseAggregation(GetAttr(node, AttrAggregation)),
                   ParseOrientation(GetAttr(node, AttrPreferredOrientation)), inputs, outputs, rules);
  }

  method ReadClauses(kids: seq<Node>) returns (inputs: seq<Input>, outputs: seq<Output>, rules: seq<Rule>)
    ensures inputs == Each(kids, TagInput, InputOf) && outputs == Each(kids, TagOutput, OutputOf) && rules == Each(kids, TagRule, RuleOf)
  {
    hide *;
    inputs, outputs, rules := [], [], [];
    EachLast([], Text(""), TagInput, InputOf);
    EachLast([], Text(""), TagOutput, OutputOf);
    EachLast([], Text(""), TagRule, RuleOf);
    for i := 0 to |kids|
      invariant inputs == Each(kids[..i], TagInput, InputOf)
      invariant outputs == Each(kids[..i], TagOutput, OutputOf)
      invariant rules == Each(kids[..i], TagRule, RuleOf)
    {
      var kid := kids[i];
      assert kids[..i + 1] == kids[..i] + [kid];
      EachLast(kids[..i], kid, TagInput, InputOf);
      EachLast(kids[..i], kid, TagOutput, OutputOf);
      EachLast(kids[..i], kid, TagRule, RuleOf);
      OneTag(kid);
      if HasTag(kid, TagInput) {
        inputs := inputs + [InputOf(kid)];
      } else if HasTag(kid, TagOutput) {
        outputs := outputs + [OutputOf(kid)];
      } else if HasTag(kid, TagRule) {
        var rule := ParseRule(kid);
        rules := rules + [rule];
      }
    }
    assert kids[..|kids|] == kids;
  }

  method ParseRule(node: Node) returns (rule: Rule)
    ensures rule == RuleOf(node)
  {
    hide Each, EntryOf, EntryText, GetAttr;
    var kids := Children(node);
    var description := GetAttr(node, AttrDescription);
    if description == None {
      var element := FindElement(kids, TagDescription);
      if element.Some? {
        description := NonEmpty(EntryText(element.value));
      }
    }
    var inputEntries, outputEntries, annotationEntries := ReadEntries(kids);
    rule := Rule(AttrOrEmpty(node, AttrId), description, inputEntries, outputEntries, annotationEntries);
  }

  method ReadEntries(kids: seq<Node>) returns (inputEntries: seq<Entry>, outputEntries: seq<Entry>, annotationEntries: seq<string>)
    ensures inputEntries == Each(kids, TagInputEntry, EntryOf) && outputEntries == Each(kids, TagOutputEntry, EntryOf)
    ensures annotationEntries == Each(kids, TagAnnotationEntry, EntryText)
  {
    hide *;
    inputEntries, outputEntries, annotationEntries := [], [], [];
    EachLast([], Text(""), TagInputEntry, EntryOf);
    EachLast([], Text(""), TagOutputEntry, EntryOf);
    EachLast([], Text(""), TagAnnotationEntry, EntryText);
    for i := 0 to |kids|
      invariant inputEntries == Each(kids[..i], TagInputEntry, EntryOf)
      invariant outputEntries == Each(kids[..i], TagOutputEntry, EntryOf)
      invariant annotationEntries == Each(kids[..i], TagAnnotationEntry, EntryText)
    {
      var kid := kids[i];
      assert kids[..i + 1] == kids[..i] + [kid];
      EachLast(kids[..i], kid, TagInputEntry, EntryOf);
      EachLast(kids[..i], kid, TagOutputEntry, EntryOf);
      EachLast(kids[..i], kid, TagAnnotationEntry, EntryText);
      OneTag(kid);
      if HasTag(kid, TagInputEntry) {
        inputEntries := inputEntries + [EntryOf(kid)];
      } else if HasTag(kid, TagOutputEntry) {
        outputEntries := outputEntries + [EntryOf(kid)];
      } else if HasTag(kid, TagAnnotationEntry) {
        annotationEntries := annotationEntries + [EntryText(kid)];
      }
    }
    assert kids[..|kids|] == kids;
  }

  lemma OneTag(kid: Node)
    ensures forall a, b :: HasTag(kid, a) && HasTag(kid, b) ==> a == b
  {
  }

  method ParseExpressionBody(node: Node) returns (e: Option<Expr>)
    ensures e == BodyOf(node)
    decreases node, 1
  {
    hide BodyOf;
    FormsAreBodies(node);
    if node.Text? || !IsForm(node.tag) {
      return None;
    }
    var body: Expr;
    match node.tag {
      case TagDecisionTable => var table := ParseDecisionTable(node); body := DecisionTable(table); TableMeans(node);
      case TagLiteralExpression => body := ParseLiteralExpression(node);
      case TagContext => body := ParseBoxedContext(node);
      case TagInvocation => body := ParseBoxedInvocation(node);
      case TagList => body := ParseBoxedList(node);
      case TagRelation => body := ParseRelation(node);
      case TagFunctionDefinition => body := ParseFunctionDefinition(node);
      case TagConditional => body := ParseBoxedConditional(node);
      case TagFilter => body := ParseBoxedFilter(node);
      case TagFor => body := ParseBoxedFor(node);
      case TagEvery => body := ParseBoxedEvery(node);
      case TagSome => body := ParseBoxedSome(node);
    }
    e := Some(body);
  }

  lemma TableMeans(node: Node)
    requires HasTag(node, TagDecisionTable)
    ensures BodyOf(node) == Some(DecisionTable(TableOf(node)))
  {
  }

  method ParseLiteralExpression(node: Node) returns (e: Expr)
    requires HasTag(node, TagLiteralExpression)
    ensures BodyOf(node) == Some(e)
    decreases node, 0
  {
    hide TextContent;
    var text := FindElement(node.kids, TagText);
    e := Literal(GetAttr(node, AttrId), match text case Some(t) => TextContent(t) case None => "",
                 GetAttr(node, AttrTypeRef), GetAttr(node, AttrExpressionLanguage));
  }

  /** The first expression among an element's children, found without parsing the later ones. */
  method FirstExpressionBodyInChildren(parent: Node) returns (e: Option<Expr>)
    requires parent.Elem?
    ensures e == Head(Bodies(parent.kids))
    decreases parent, 0
  {
    hide Bodies, BodyOf;
    var kids := parent.kids;
    BodiesLast([], parent);
    for i := 0 to |kids|
      invariant Bodies(kids[..i]) == []
    {
      assert kids[..i + 1] == kids[..i] + [kids[i]];
      BodiesLast(kids[..i], kids[i]);
      e := ParseExpressionBody(kids[i]);
      if e.Some? {
        assert kids == kids[..i + 1] + kids[i + 1..];
        BodiesConcat(kids[..i + 1], kids[i + 1..]);
        return;
      }
    }
    assert kids[..|kids|] == kids;
    e := None;
  }

  method ParseBodies(parent: Node) returns (elements: seq<Expr>)
    requires parent.Elem?
    ensures elements == Bodies(parent.kids)
    decreases parent, 0
  {
    hide Bodies, BodyOf;
    var kids := parent.kids;
    elements := [];
    BodiesLast([], parent);
    for i := 0 to |kids|
      invariant elements == Bodies(kids[..i])
    {
      assert kids[..i + 1] == kids[..i] + [kids[i]];
      BodiesLast(kids[..i], kids[i]);
      var parsed := ParseExpressionBody(kids[i]);
      if parsed.Some? {
        elements := elements + [parsed.value];
      }
    }
    assert kids[..|kids|] == kids;
  }

  method ParseBoxedList(node: Node) returns (e: Expr)
    requires HasTag(node, TagList)
    ensures BodyOf(node) == Some(e)
    decreases node, 1, 0
  {
    hide Bodies;
    var elements := ParseBodies(node);
    e := List(GetAttr(node, AttrId), elements);
  }

  /** A context entry or a binding: whatever comes last overwrites. */
  method ParseSlot(node: Node, itemTag: Tag) returns (slot: Slot)
    requires node.Elem? && !IsForm(itemTag)
    ensures slot == SlotOf(node, itemTag)
    decreases node, 0
  {
    hide Bodies, BodyOf, Each, InformationItemOf;
    var kids := node.kids;
    var item: Option<InformationItem>, expression: Option<Expr> := None, None;
    BodiesLast([], node);
    EachLast([], node, itemTag, InformationItemOf);
    for i := 0 to |kids|
      invariant item == Last(Items(kids[..i], itemTag)) && expression == Last(Bodies(kids[..i]))
    {
      var kid := kids[i];
      assert kids[..i + 1] == kids[..i] + [kid];
      BodiesLast(kids[..i], kid);
      EachLast(kids[..i], kid, itemTag, InformationItemOf);
      if HasTag(kid, itemTag) {
        item := Some(InformationItemOf(kid));
        NoForm(kid, itemTag);
      } else {
        var parsed := ParseExpressionBody(kid);
        if parsed.Some? {
          expression := parsed;
        }
      }
    }
    assert kids[..|kids|] == kids;
    slot := Slot(item, expression);
  }

  method ParseBoxedContext(node: Node) returns (e: Expr)
    requires HasTag(node, TagContext)
    ensures BodyOf(node) == Some(e)
    decreases node, 0
  {
    hide Slots, SlotOf;
    var kids := node.kids;
    var contextEntries: seq<Slot> := [];
    SlotsLast([], node, TagContextEntry, TagVariable);
    for i := 0 to |kids|
      invariant contextEntries == Slots(kids[..i], TagContextEntry, TagVariable)
    {
      assert kids[..i + 1] == kids[..i] + [kids[i]];
      SlotsLast(kids[..i], kids[i], TagContextEntry, TagVariable);
      if HasTag(kids[i], TagContextEntry) {
        var slot := ParseSlot(kids[i], TagVariable);
        contextEntries := contextEntries + [slot];
      }
    }
    assert kids[..|kids|] == kids;
    e := Context(GetAttr(node, AttrId), contextEntries);
  }

  method ParseBoxedInvocation(node: Node) returns (e: Expr)
    requires HasTag(node, TagInvocation)
    ensures BodyOf(node) == Some(e)
    decreases node, 1, 0
  {
    var calledFunction, bindings := ReadInvocation(node);
    hide Bodies, Slots, TextOf;
    e := Invocation(GetAttr(node, AttrId), calledFunction, bindings);
  }

  /** Only the first expression can name the function called, and only if it has a text. */
  method ReadInvocation(node: Node) returns (calledFunction: string, bindings: seq<Slot>)
    requires node.Elem?
    ensures calledFunction == TextOf(Head(Bodies(node.kids))) && bindings == Slots(node.kids, TagBinding, TagParameter)
    decreases node, 0
  {
    hide Bodies, BodyOf, Slots, SlotOf;
    var kids := node.kids;
    var foundCalledFunction := false;
    calledFunction, bindings := "", [];
    BodiesLast([], node);
    SlotsLast([], node, TagBinding, TagParameter);
    for i := 0 to |kids|
      invariant foundCalledFunction <==> Bodies(kids[..i]) != []
      invariant calledFunction == TextOf(Head(Bodies(kids[..i]))) && bindings == Slots(kids[..i], TagBinding, TagParameter)
    {
      var kid := kids[i];
      assert kids[..i + 1] == kids[..i] + [kid];
      BodiesLast(kids[..i], kid);
      SlotsLast(kids[..i], kid, TagBinding, TagParameter);
      if HasTag(kid, TagBinding) {
        NoForm(kid, TagBinding);
        var binding := ParseSlot(kid, TagParameter);
        bindings := bindings + [binding];
      } else {
        var parsed := ParseExpressionBody(kid);
        if parsed.Some? && !foundCalledFunction {
          foundCalledFunction := true;
          if parsed.value.Literal? {
            calledFunction := parsed.value.text;
          }
        }
      }
    }
    assert kids[..|kids|] == kids;
  }

  method ParseRelation(node: Node) returns (e: Expr)
    requires HasTag(node, TagRelation)
    ensures BodyOf(node) == Some(e)
    decreases node, 0
  {
    hide Rows, Bodies, Each, InformationItemOf;
    var kids := node.kids;
    var columns: seq<InformationItem>, rows: seq<Row> := [], [];
    RowsLast([], node);
    EachLast([], node, TagColumn, InformationItemOf);
    for i := 0 to |kids|
      invariant columns == Items(kids[..i], TagColumn) && rows == Rows(kids[..i])
    {
      var kid := kids[i];
      assert kids[..i + 1] == kids[..i] + [kid];
      RowsLast(kids[..i], kid);
      EachLast(kids[..i], kid, TagColumn, InformationItemOf);
      if HasTag(kid, TagColumn) {
        columns := columns + [InformationItemOf(kid)];
      } else if HasTag(kid, TagRow) {
        var cells := ParseBodies(kid);
        rows := rows + [Row(cells)];
      }
    }
    assert kids[..|kids|] == kids;
    e := Relation(GetAttr(node, AttrId), columns, rows);
  }

  method ParseFunctionDefinition(node: Node) returns (e: Expr)
    requires HasTag(node, TagFunctionDefinition)
    ensures BodyOf(node) == Some(e)
    decreases node, 1, 0
  {
    var formalParameters, body := ReadFunction(node);
    hide Bodies, Each, Upper, DmnExpr.KindOf;
    var rawKind := match GetAttr(node, AttrKind) case Some(kind) => kind case None => "FEEL";
    KindMeans(GetAttr(node, AttrKind));
    e := FunctionDefinition(GetAttr(node, AttrId), if Upper(rawKind) == "FEEL" then "FEEL" else rawKind, formalParameters, body);
  }

  lemma KindMeans(raw: Option<string>)
    ensures var kind := match raw case Some(kind) => kind case None => "FEEL";
      DmnExpr.KindOf(raw) == if Upper(kind) == "FEEL" then "FEEL" else kind
  {
    hide Upper;
    UpperOfCapitals("FEEL");
  }

  method ReadFunction(node: Node) returns (formalParameters: seq<InformationItem>, body: Option<Expr>)
    requires node.Elem?
    ensures formalParameters == Items(node.kids, TagFormalParameter) && body == Last(Bodies(node.kids))
    decreases node, 0
  {
    hide Bodies, BodyOf, Each, InformationItemOf;
    var kids := node.kids;
    formalParameters, body := [], None;
    BodiesLast([], node);
    EachLast([], node, TagFormalParameter, InformationItemOf);
    for i := 0 to |kids|
      invariant formalParameters == Items(kids[..i], TagFormalParameter) && body == Last(Bodies(kids[..i]))
    {
      var kid := kids[i];
      assert kids[..i + 1] == kids[..i] + [kid];
      BodiesLast(kids[..i], kid);
      EachLast(kids[..i], kid, TagFormalParameter, InformationItemOf);
      if HasTag(kid, TagFormalParameter) {
        formalParameters := formalParameters + [InformationItemOf(kid)];
        NoForm(kid, TagFormalParameter);
      } else {
        var parsed := ParseExpressionBody(kid);
        if parsed.Some? {
          body := parsed;
        }
      }
    }
    assert kids[..|kids|] == kids;
  }

  method ParseBoxedConditional(node: Node) returns (e: Expr)
    requires HasTag(node, TagConditional)
    ensures BodyOf(node) == Some(e)
    decreases node, 1, 0
  {
    var ifExpression, thenExpression, elseExpression := ReadBranches(node);
    hide Under;
    e := Conditional(GetAttr(node, AttrId), ifExpression, thenExpression, elseExpression);
  }

  method ReadBranches(node: Node) returns (ifExpression: Option<Expr>, thenExpression: Option<Expr>, elseExpression: Option<Expr>)
    requires node.Elem?
    ensures ifExpression == Under(node.kids, TagIf) && thenExpression == Under(node.kids, TagThen) && elseExpression == Under(node.kids, TagElse)
    decreases node, 0
  {
    hide Under, Bodies;
    var kids := node.kids;
    ifExpression, thenExpression, elseExpression := None, None, None;
    UnderLast([], node, TagIf);
    UnderLast([], node, TagThen);
    UnderLast([], node, TagElse);
    for i := 0 to |kids|
      invariant ifExpression == Under(kids[..i], TagIf)
      invariant thenExpression == Under(kids[..i], TagThen)
      invariant elseExpression == Under(kids[..i], TagElse)
    {
      var kid := kids[i];
      assert kids[..i + 1] == kids[..i] + [kid];
      UnderLast(kids[..i], kid, TagIf);
      UnderLast(kids[..i], kid, TagThen);
      UnderLast(kids[..i], kid, TagElse);
      if HasTag(kid, TagIf) {
        ifExpression := FirstExpressionBodyInChildren(kid);
      } else if HasTag(kid, TagThen) {
        thenExpression := FirstExpressionBodyInChildren(kid);
      } else if HasTag(kid, TagElse) {
        elseExpression := FirstExpressionBodyInChildren(kid);
      }
    }
    assert kids[..|kids|] == kids;
  }

  /** The loop that filter, for, every and some have in common, for an `in` part and one other. */
  method ReadIn(node: Node, tag: Tag) returns (inExpression: Option<Expr>, other: Option<Expr>)
    requires node.Elem? && tag != TagIn
    ensures inExpression == Under(node.kids, TagIn) && other == Under(node.kids, tag)
    decreases node, 0
  {
    hide Under, Bodies;
    var kids := node.kids;
    inExpression, other := None, None;
    UnderLast([], node, TagIn);
    UnderLast([], node, tag);
    for i := 0 to |kids|
      invariant inExpression == Under(kids[..i], TagIn) && other == Under(kids[..i], tag)
    {
      var kid := kids[i];
      assert kids[..i + 1] == kids[..i] + [kid];
      UnderLast(kids[..i], kid, TagIn);
      UnderLast(kids[..i], kid, tag);
      if HasTag(kid, TagIn) {
        inExpression := FirstExpressionBodyInChildren(kid);
      } else if HasTag(kid, tag) {
        other := FirstExpressionBodyInChildren(kid);
      }
    }
    assert kids[..|kids|] == kids;
  }

  method ParseBoxedFilter(node: Node) returns (e: Expr)
    requires HasTag(node, TagFilter)
    ensures BodyOf(node) == Some(e)
    decreases node, 1, 0
  {
    var inExpression, matchExpression := ReadIn(node, TagMatch);
    hide Under;
    e := Filter(GetAttr(node, AttrId), inExpression, matchExpression);
  }

  method ParseBoxedFor(node: Node) returns (e: Expr)
    requires HasTag(node, TagFor)
    ensures BodyOf(node) == Some(e)
    decreases node, 1, 0
  {
    var inExpression, returnExpression := ReadIn(node, TagReturn);
    hide Under;
    e := For(GetAttr(node, AttrId), AttrOrEmpty(node, AttrIteratorVariable), inExpression, returnExpression);
  }

  method ParseBoxedEvery(node: Node) returns (e: Expr)
    requires HasTag(node, TagEvery)
    ensures BodyOf(node) == Some(e)
    decreases node, 1, 0
  {
    var inExpression, satisfiesExpression := ReadIn(node, TagSatisfies);
    hide Under;
    e := Quantified(GetAttr(node, AttrId), AttrOrEmpty(node, AttrIteratorVariable), inExpression, satisfiesExpression);
  }

  method ParseBoxedSome(node: Node) returns (e: Expr)
    requires HasTag(node, TagSome)
    ensures BodyOf(node) == Some(e)
    decreases node, 1, 0
  {
    var inExpression, satisfiesExpression := ReadIn(node, TagSatisfies);
    hide Under;
    e := Quantified(GetAttr(node, AttrId), AttrOrEmpty(node, AttrIteratorVariable), inExpression, satisfiesExpression);
  }

  /** Of a decision the last expression counts, whatever stands between. */
  method ParseDecisionExpression(node: Node) returns (expression: Option<Expr>)
    ensures expression == Last(Bodies(Children(node)))
  {
    hide Bodies, BodyOf;
    var kids := Children(node);
    expression := None;
    BodiesLast([], node);
    for i := 0 to |kids|
      invariant expression == Last(Bodies(kids[..i]))
    {
      assert kids[..i + 1] == kids[..i] + [kids[i]];
      BodiesLast(kids[..i], kids[i]);
      var parsed := ParseExpressionBody(kids[i]);
      if parsed.Some? {
        expression := parsed;
      }
    }
    assert kids[..|kids|] == kids;
  }
}
