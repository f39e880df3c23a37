/**
 Boxed expressions (packages/js/sdk/src/dmn/model.ts) and what each form stands for in
 the document: which children count, in what order, and which of several wins. Every
 function here says what the parsing method of the corresponding name computes.
 */
module DmnExpr {
  import opened Collections
  import opened Xml
  import opened DmnWords

  datatype InformationItem = InformationItem(id: Option<string>, name: string, typeRef: Option<string>)

  datatype Input = Input(id: string, caption: Option<string>, inputExpression: Option<string>, inputValues: Option<string>, typeRef: Option<string>)

  datatype Output = Output(id: string, caption: Option<string>, name: Option<string>, outputValues: Option<string>,
                           typeRef: Option<string>, defaultOutputValue: Option<string>)

  datatype Entry = Entry(id: string, text: string)

  datatype Rule = Rule(id: string, description: Option<string>, inputEntries: seq<Entry>, outputEntries: seq<Entry>, annotationEntries: seq<string>)

  datatype Table = Table(id: Option<string>, hitPolicy: HitPolicy, aggregation: Option<Aggregation>, orientation: Orientation,
                         inputs: seq<Input>, outputs: seq<Output>, rules: seq<Rule>)

  /** A context entry (its item is the variable) or a binding (its item is the parameter). */
  datatype Slot = Slot(item: Option<InformationItem>, expression: Option<Expr>)

  /** One row of a relation. */
  datatype Row = Row(cells: seq<Expr>)

  /** `every` and `some` parse to objects with the same fields: one constructor for both. */
  datatype Expr =
    | DecisionTable(table: Table)
    | Literal(id: Option<string>, text: string, typeRef: Option<string>, expressionLanguage: Option<string>)
    | Context(id: Option<string>, contextEntries: seq<Slot>)
    | Invocation(id: Option<string>, calledFunction: string, bindings: seq<Slot>)
    | List(id: Option<string>, elements: seq<Expr>)
    | Relation(id: Option<string>, columns: seq<InformationItem>, rows: seq<Row>)
    | FunctionDefinition(id: Option<string>, kind: string, formalParameters: seq<InformationItem>, body: Option<Expr>)
    | Conditional(id: Option<string>, ifExpression: Option<Expr>, thenExpression: Option<Expr>, elseExpression: Option<Expr>)
    | Filter(id: Option<string>, inExpression: Option<Expr>, matchExpression: Option<Expr>)
    | For(id: Option<string>, iteratorVariable: string, inExpression: Option<Expr>, returnExpression: Option<Expr>)
    | Quantified(id: Option<string>, iteratorVariable: string, inExpression: Option<Expr>, satisfiesExpression: Option<Expr>)

  // ----- leaves

  function InformationItemOf(node: Node): InformationItem {
    InformationItem(GetAttr(node, AttrId), AttrOrEmpty(node, AttrName), GetAttr(node, AttrTypeRef))
  }

  /** The text of a cell: that of its text child, or its own where that is empty. */
  function EntryText(node: Node): string {
    if ChildText(Children(node), TagText) != "" then ChildText(Children(node), TagText) else TextContent(node)
  }

  /** The text of the first child with a tag, where there is one that is not empty. */
  function CellText(kids: seq<Node>, tag: Tag): Option<string> {
    match FindElement(kids, tag) case None => None case Some(cell) => NonEmpty(EntryText(cell))
  }

  function InputOf(node: Node): Input {
    var kids := Children(node);
    Input(AttrOrEmpty(node, AttrId), GetAttr(node, AttrLabel), CellText(kids, TagInputExpression), CellText(kids, TagInputValues),
          match FindElement(kids, TagInputExpression) case None => None case Some(e) => GetAttr(e, AttrTypeRef))
  }

  function OutputOf(node: Node): Output {
    var kids := Children(node);
    Output(AttrOrEmpty(node, AttrId), GetAttr(node, AttrLabel), GetAttr(node, AttrName), CellText(kids, TagOutputValues),
           GetAttr(node, AttrTypeRef), CellText(kids, TagDefaultOutputEntry))
  }

  function EntryOf(node: Node): Entry {
    Entry(AttrOrEmpty(node, AttrId), EntryText(node))
  }

  function KindOf(raw: Option<string>): string {
    match raw
    case None => "FEEL"
    case Some(kind) => if Upper(kind) == "FEEL" then "FEEL" else kind
  }

  // ----- lists

  /** What `read` makes of the children with a tag, in document order. */
  function Each<T>(kids: seq<Node>, tag: Tag, read: Node -> T): seq<T> {
    if kids == [] then []
    else
      var n := |kids| - 1;
      Each(kids[..n], tag, read) + if HasTag(kids[n], tag) then [read(kids[n])] else []
  }

  function Last<T>(s: seq<T>): Option<T> {
    if s == [] then None else Some(s[|s| - 1])
  }

  function Head<T>(s: seq<T>): Option<T> {
    if s == [] then None else Some(s[0])
  }

  function Items(kids: seq<Node>, tag: Tag): seq<InformationItem> {
    Each(kids, tag, InformationItemOf)
  }

  /** The attribute decides, even an empty one; only without it does the first description child. */
  function RuleOf(node: Node): Rule {
    var kids := Children(node);
    Rule(AttrOrEmpty(node, AttrId),
         match GetAttr(node, AttrDescription) case Some(s) => Some(s) case None => CellText(kids, TagDescription),
         Each(kids, TagInputEntry, EntryOf), Each(kids, TagOutputEntry, EntryOf), Each(kids, TagAnnotationEntry, EntryText))
  }

  function TableOf(node: Node): Table {
    var kids := Children(node);
    Table(GetAttr(node, AttrId), ParseHitPolicy(GetAttr(node, AttrHitPolicy)), ParseAggregation(GetAttr(node, AttrAggregation)),
          ParseOrientation(GetAttr(node, AttrPreferredOrientation)),
          Each(kids, TagInput, InputOf), Each(kids, TagOutput, OutputOf), Each(kids, TagRule, RuleOf))
  }

  // ----- expressions

  /** The text of an expression that has one. */
  function TextOf(e: Option<Expr>): string {
    if e.Some? && e.value.Literal? then e.value.text else ""
  }

  /** The expression an element stands for, if it is one of the twelve forms. */
  function BodyOf(node: Node): Option<Expr>
    decreases node, 0
  {
    if node.Text? then None
    else
      var id, kids := GetAttr(node, AttrId), node.kids;
      match node.tag
      case TagDecisionTable => Some(DecisionTable(TableOf(node)))
      case TagLiteralExpression => Some(Literal(id, ChildText(kids, TagText), GetAttr(node, AttrTypeRef), GetAttr(node, AttrExpressionLanguage)))
      case TagContext => Some(Context(id, Slots(kids, TagContextEntry, TagVariable)))
      case TagInvocation => Some(Invocation(id, TextOf(Head(Bodies(kids))), Slots(kids, TagBinding, TagParameter)))
      case TagList => Some(List(id, Bodies(kids)))
      case TagRelation => Some(Relation(id, Items(kids, TagColumn), Rows(kids)))
      case TagFunctionDefinition => Some(FunctionDefinition(id, KindOf(GetAttr(node, AttrKind)), Items(kids, TagFormalParameter), Last(Bodies(kids))))
      case TagConditional => Some(Conditional(id, Under(kids, TagIf), Under(kids, TagThen), Under(kids, TagElse)))
      case TagFilter => Some(Filter(id, Under(kids, TagIn), Under(kids, TagMatch)))
      case TagFor => Some(For(id, AttrOrEmpty(node, AttrIteratorVariable), Under(kids, TagIn), Under(kids, TagReturn)))
      case TagEvery => Some(Quantified(id, AttrOrEmpty(node, AttrIteratorVariable), Under(kids, TagIn), Under(kids, TagSatisfies)))
      case TagSome => Some(Quantified(id, AttrOrEmpty(node, AttrIteratorVariable), Under(kids, TagIn), Under(kids, TagSatisfies)))
      case _ => None
  }

  /** The expressions among the children, in document order. */
  function Bodies(kids: seq<Node>): seq<Expr>
    decreases kids, 0
  {
    if kids == [] then []
    else
      var n := |kids| - 1;
      Bodies(kids[..n]) + match BodyOf(kids[n]) case Some(e) => [e] case None => []
  }

  /** Of a context entry or a binding the last item and the last expression count. */
  function SlotOf(node: Node, itemTag: Tag): Slot
    decreases node, 0
  {
    if node.Text? then Slot(None, None)
    else Slot(Last(Items(node.kids, itemTag)), Last(Bodies(node.kids)))
  }

  function Slots(kids: seq<Node>, tag: Tag, itemTag: Tag): seq<Slot>
    decreases kids, 0
  {
    if kids == [] then []
    else
      var n := |kids| - 1;
      Slots(kids[..n], tag, itemTag) + if HasTag(kids[n], tag) then [SlotOf(kids[n], itemTag)] else []
  }

  function Rows(kids: seq<Node>): seq<Row>
    decreases kids, 0
  {
    if kids == [] then []
    else
      var n := |kids| - 1;
      Rows(kids[..n]) + if HasTag(kids[n], TagRow) then [Row(Bodies(kids[n].kids))] else []
  }

  /** The first expression in the last child with the tag: an empty such child takes the value away again. */
  function Under(kids: seq<Node>, tag: Tag): Option<Expr>
    decreases kids, 0
  {
    if kids == [] then None
    else
      var n := |kids| - 1;
      if HasTag(kids[n], tag) then Head(Bodies(kids[n].kids)) else Under(kids[..n], tag)
  }

  predicate IsForm(tag: Tag) {
    match tag
    case TagDecisionTable | TagLiteralExpression | TagContext | TagInvocation | TagList | TagRelation => true
    case TagFunctionDefinition | TagConditional | TagFilter | TagFor | TagEvery | TagSome => true
    case _ => false
  }

  /** Exactly twelve elements are expressions, and each of them always is. */
  lemma FormsAreBodies(node: Node)
    ensures BodyOf(node).Some? <==> node.Elem? && IsForm(node.tag)
  {
    hide Bodies, Slots, Rows, Under, TableOf;
  }

  // ----- one more child, or several

  lemma EachLast<T>(kids: seq<Node>, kid: Node, tag: Tag, read: Node -> T)
    ensures Each(kids + [kid], tag, read) == Each(kids, tag, read) + if HasTag(kid, tag) then [read(kid)] else []
    ensures Each([], tag, read) == []
  {
    assert (kids + [kid])[..|kids + [kid]| - 1] == kids;
  }

  lemma BodiesLast(kids: seq<Node>, kid: Node)
    ensures Bodies(kids + [kid]) == Bodies(kids) + match BodyOf(kid) case Some(e) => [e] case None => []
    ensures Bodies([]) == []
  {
    hide BodyOf;
    assert (kids + [kid])[..|kids + [kid]| - 1] == kids;
  }

  lemma SlotsLast(kids: seq<Node>, kid: Node, tag: Tag, itemTag: Tag)
    ensures Slots(kids + [kid], tag, itemTag) == Slots(kids, tag, itemTag) + if HasTag(kid, tag) then [SlotOf(kid, itemTag)] else []
    ensures Slots([], tag, itemTag) == []
  {
    hide SlotOf;
    assert (kids + [kid])[..|kids + [kid]| - 1] == kids;
  }

  lemma RowsLast(kids: seq<Node>, kid: Node)
    ensures Rows(kids + [kid]) == Rows(kids) + if HasTag(kid, TagRow) then [Row(Bodies(kid.kids))] else []
    ensures Rows([]) == []
  {
    hide Bodies;
    assert (kids + [kid])[..|kids + [kid]| - 1] == kids;
  }

  lemma UnderLast(kids: seq<Node>, kid: Node, tag: Tag)
    ensures Under(kids + [kid], tag) == if HasTag(kid, tag) then Head(Bodies(kid.kids)) else Under(kids, tag)
    ensures Under([], tag) == None
  {
    hide Bodies;
    assert (kids + [kid])[..|kids + [kid]| - 1] == kids;
  }

  lemma {:induction false} EachConcat<T>(a: seq<Node>, b: seq<Node>, tag: Tag, read: Node -> T)
    ensures Each(a + b, tag, read) == Each(a, tag, read) + Each(b, tag, read)
  {
    hide Each;
    EachLast([], Text(""), tag, read);
    if b == [] {
      assert a + b == a;
    } else {
      var rest, last := b[..|b| - 1], b[|b| - 1];
      assert b == rest + [last] && a + b == (a + rest) + [last];
      EachConcat(a, rest, tag, read);
      EachLast(rest, last, tag, read);
      EachLast(a + rest, last, tag, read);
    }
  }

  lemma {:induction false} BodiesConcat(a: seq<Node>, b: seq<Node>)
    ensures Bodies(a + b) == Bodies(a) + Bodies(b)
  {
    hide Bodies, BodyOf;
    BodiesLast([], Text(""));
    if b == [] {
      assert a + b == a;
    } else {
      var rest, last := b[..|b| - 1], b[|b| - 1];
      assert b == rest + [last] && a + b == (a + rest) + [last];
      BodiesConcat(a, rest);
      BodiesLast(rest, last);
      BodiesLast(a + rest, last);
    }
  }

  lemma {:induction false} SlotsConcat(a: seq<Node>, b: seq<Node>, tag: Tag, itemTag: Tag)
    ensures Slots(a + b, tag, itemTag) == Slots(a, tag, itemTag) + Slots(b, tag, itemTag)
  {
    hide Slots, SlotOf;
    SlotsLast([], Text(""), tag, itemTag);
    if b == [] {
      assert a + b == a;
    } else {
      var rest, last := b[..|b| - 1], b[|b| - 1];
      assert b == rest + [last] && a + b == (a + rest) + [last];
      SlotsConcat(a, rest, tag, itemTag);
      SlotsLast(rest, last, tag, itemTag);
      SlotsLast(a + rest, last, tag, itemTag);
    }
  }

  lemma {:induction false} RowsConcat(a: seq<Node>, b: seq<Node>)
    ensures Rows(a + b) == Rows(a) + Rows(b)
  {
    hide Rows, Bodies;
    RowsLast([], Text(""));
    if b == [] {
      assert a + b == a;
    } else {
      var rest, last := b[..|b| - 1], b[|b| - 1];
      assert b == rest + [last] && a + b == (a + rest) + [last];
      RowsConcat(a, rest);
      RowsLast(rest, last);
      RowsLast(a + rest, last);
    }
  }
}
