/**
 The ordered element trees both parsers walk (`OrderedNode` in
 packages/js/sdk/src/bpmn/parser.ts and packages/js/sdk/src/dmn/parser.ts,
 `Element` in the scripts), and the accessors they walk them with.

 Element and attribute names are an enumeration: one constructor for each name
 the code compares against, and `Other(name)` for every other name. Namespace
 prefixes are gone at this point, as in the sources.
 */
module Xml {
  import opened Collections

  datatype Tag =
    // requirements diagrams
    | TagDecision | TagInputData | TagBusinessKnowledgeModel | TagKnowledgeSource | TagDecisionService
    | TagInformationRequirement | TagKnowledgeRequirement | TagAuthorityRequirement
    // diagram interchange
    | TagDmnDi | TagDmnDiagram | TagDmnShape | TagDmnEdge | TagBounds | TagWaypoint
    // boxed expressions
    | TagDecisionTable | TagLiteralExpression | TagContext | TagInvocation | TagList | TagRelation
    | TagFunctionDefinition | TagConditional | TagFilter | TagFor | TagEvery | TagSome
    | TagContextEntry | TagVariable | TagBinding | TagParameter | TagColumn | TagRow
    | TagIf | TagThen | TagElse | TagIn | TagMatch | TagReturn | TagSatisfies | TagFormalParameter
    | TagText | TagInput | TagOutput | TagRule | TagInputExpression | TagInputValues | TagOutputValues
    | TagDefaultOutputEntry | TagInputEntry | TagOutputEntry | TagAnnotationEntry | TagDescription
    // item definitions
    | TagTypeRef | TagAllowedValues | TagItemComponent
    // flow nodes
    | TagStartEvent | TagEndEvent | TagIntermediateCatchEvent | TagIntermediateThrowEvent | TagBoundaryEvent
    | TagTask | TagUserTask | TagServiceTask | TagManualTask | TagScriptTask | TagBusinessRuleTask
    | TagSendTask | TagReceiveTask | TagCallActivity
    | TagSubProcess | TagTransaction | TagAdHocSubProcess
    | TagExclusiveGateway | TagParallelGateway | TagInclusiveGateway | TagEventBasedGateway | TagComplexGateway
    // other process content
    | TagSequenceFlow | TagConditionExpression | TagLane | TagFlowNodeRef | TagAssociation
    | TagIncoming | TagOutgoing | TagDocumentation | TagDataInputAssociation | TagDataOutputAssociation
    | TagSourceRef | TagTargetRef | TagTransformation
    | TagLaneSet | TagDataObjectReference | TagDataStoreReference
    | Other(name: string)

  datatype Attr =
    | AttrId | AttrName | AttrTypeRef | AttrExpressionLanguage | AttrKind | AttrIteratorVariable
    | AttrHitPolicy | AttrAggregation | AttrPreferredOrientation | AttrLabel | AttrDescription
    | AttrIsCollection | AttrHref | AttrDmnElementRef | AttrX | AttrY | AttrWidth | AttrHeight
    | AttrDefault | AttrAttachedToRef | AttrCancelActivity | AttrSourceRef | AttrTargetRef
    | AttrAssociationDirection | AttrTriggeredByEvent | AttrIsForCompensation | AttrIsExecutable
    | OtherAttr(attrName: string)

  datatype Node =
    | Elem(tag: Tag, attrs: map<Attr, string>, kids: seq<Node>)
    | Text(text: string)

  function Children(node: Node): seq<Node> {
    if node.Elem? then node.kids else []
  }

  predicate HasTag(node: Node, tag: Tag) {
    node.Elem? && node.tag == tag
  }

  function GetAttr(node: Node, name: Attr): Option<string> {
    if node.Elem? && name in node.attrs then Some(node.attrs[name]) else None
  }

  /** The attribute, or the empty string where it is missing. */
  function AttrOrEmpty(node: Node, name: Attr): string {
    match GetAttr(node, name) case Some(s) => s case None => ""
  }

  /** The first element with the tag. */
  function FindElement(nodes: seq<Node>, tag: Tag): Option<Node> {
    if nodes == [] then None
    else if HasTag(nodes[0], tag) then Some(nodes[0])
    else FindElement(nodes[1..], tag)
  }

  /** White space as `String.prototype.trim` of ECMAScript defines it. */
  predicate IsSpace(c: char) {
    || c == ' ' || c == '\t' || c == '\n' || c == '\r'
    || c == '\U{000B}' || c == '\U{000C}' || c == '\U{00A0}' || c == '\U{1680}'
    || '\U{2000}' <= c <= '\U{200A}'
    || c == '\U{2028}' || c == '\U{2029}' || c == '\U{202F}' || c == '\U{205F}' || c == '\U{3000}' || c == '\U{FEFF}'
  }

  function TrimStart(s: string): string {
    if s != [] && IsSpace(s[0]) then TrimStart(s[1..]) else s
  }

  function TrimEnd(s: string): string {
    if s != [] && IsSpace(s[|s| - 1]) then TrimEnd(s[..|s| - 1]) else s
  }

  function Trim(s: string): string {
    TrimEnd(TrimStart(s))
  }

  predicate Trimmed(s: string) {
    s == [] || (!IsSpace(s[0]) && !IsSpace(s[|s| - 1]))
  }

  function FirstText(nodes: seq<Node>): Option<string> {
    if nodes == [] then None
    else if nodes[0].Text? then Some(nodes[0].text)
    else FirstText(nodes[1..])
  }

  /** The first text among the children, trimmed; a text node stands for itself. */
  function TextContent(node: Node): string {
    match FirstText(Children(node))
    case Some(s) => Trim(s)
    case None => if node.Text? then Trim(node.text) else ""
  }

  function ChildText(nodes: seq<Node>, tag: Tag): string {
    match FindElement(nodes, tag) case Some(n) => TextContent(n) case None => ""
  }

  function NonEmpty(s: string): Option<string> {
    if s == "" then None else Some(s)
  }

  /** A text that may be missing is missing rather than empty, and trimmed. */
  predicate NormalText(s: Option<string>) {
    s.Some? ==> s.value != "" && Trimmed(s.value)
  }

  lemma {:induction false} TrimStartStarts(s: string)
    ensures TrimStart(s) == [] || !IsSpace(TrimStart(s)[0])
  {
    if s != [] && IsSpace(s[0]) { TrimStartStarts(s[1..]); }
  }

  lemma {:induction false} TrimEndEnds(s: string)
    ensures TrimEnd(s) <= s
    ensures TrimEnd(s) == [] || !IsSpace(TrimEnd(s)[|TrimEnd(s)| - 1])
  {
    if s != [] && IsSpace(s[|s| - 1]) { TrimEndEnds(s[..|s| - 1]); }
  }

  lemma TrimTrims(s: string)
    ensures Trimmed(Trim(s))
    ensures Trimmed(s) ==> Trim(s) == s
  {
    TrimStartStarts(s);
    TrimEndEnds(TrimStart(s));
  }

  lemma TextContentTrimmed(node: Node)
    ensures Trimmed(TextContent(node))
  {
    match FirstText(Children(node))
    case Some(s) => TrimTrims(s);
    case None => if node.Text? { TrimTrims(node.text); }
  }

  // ----- what the accessors find

  /** The white space of ECMAScript, by code point. */
  lemma WhiteSpace(c: char)
    ensures IsSpace(c) <==> var n := c as int;
      9 <= n <= 13 || n in {32, 160, 5760, 8232, 8233, 8239, 8287, 12288, 65279} || 8192 <= n <= 8202
  {
  }

  lemma {:induction false} TrimStartAt(s: string) returns (n: nat)
    ensures n <= |s| && TrimStart(s) == s[n..] && forall j :: 0 <= j < n ==> IsSpace(s[j])
    ensures n < |s| ==> !IsSpace(s[n])
  {
    if s != [] && IsSpace(s[0]) {
      var m := TrimStartAt(s[1..]);
      n := m + 1;
      forall j | 0 <= j < n ensures IsSpace(s[j]) {
        if j > 0 { assert s[j] == s[1..][j - 1]; }
      }
    } else {
      n := 0;
    }
  }

  lemma {:induction false} TrimBlank(blank: string, s: string)
    requires forall c :: c in blank ==> IsSpace(c)
    ensures TrimStart(blank + s) == TrimStart(s)
  {
    if blank == [] {
      assert blank + s == s;
    } else {
      assert blank[0] in blank && (blank + s)[1..] == blank[1..] + s;
      TrimBlank(blank[1..], s);
    }
  }

  lemma {:induction false} TrimEndAt(s: string) returns (n: nat)
    ensures n <= |s| && TrimEnd(s) == s[..n] && forall j :: n <= j < |s| ==> IsSpace(s[j])
  {
    if s != [] && IsSpace(s[|s| - 1]) {
      n := TrimEndAt(s[..|s| - 1]);
    } else {
      n := |s|;
    }
  }

  /** Trimming takes off white space at both ends, all of it, and nothing else. */
  lemma TrimMeans(s: string) returns (m: nat, n: nat)
    ensures m <= n <= |s| && Trim(s) == s[m..n] && Trimmed(s[m..n])
    ensures forall j :: 0 <= j < m || n <= j < |s| ==> IsSpace(s[j])
  {
    hide IsSpace;
    m := TrimStartAt(s);
    var k := TrimEndAt(s[m..]);
    n := m + k;
    TrimTrims(s);
    forall j | n <= j < |s| ensures IsSpace(s[j]) { assert s[j] == s[m..][j - m]; }
  }

  /** The element found is the first with the tag, and one is found where there is any. */
  lemma {:induction false} FindElementMeans(nodes: seq<Node>, tag: Tag, i: nat)
    requires i < |nodes| && HasTag(nodes[i], tag) && forall j :: 0 <= j < i ==> !HasTag(nodes[j], tag)
    ensures FindElement(nodes, tag) == Some(nodes[i])
  {
    hide HasTag;
    if i == 0 {
    } else {
      FindElementMeans(nodes[1..], tag, i - 1);
    }
  }

  lemma {:induction false} FindNothing(nodes: seq<Node>, tag: Tag)
    requires forall j :: 0 <= j < |nodes| ==> !HasTag(nodes[j], tag)
    ensures FindElement(nodes, tag) == None
  {
    hide HasTag;
    if nodes == [] {
    } else {
      FindNothing(nodes[1..], tag);
    }
  }

  /** The text of an element is its first text, trimmed, whatever stands before it; without one it is empty. */
  lemma {:induction false} TextOfElement(node: Node, i: nat)
    requires node.Elem? && i <= |node.kids| && forall j :: 0 <= j < i ==> node.kids[j].Elem?
    ensures i < |node.kids| && node.kids[i].Text? ==> TextContent(node) == Trim(node.kids[i].text)
    ensures i == |node.kids| ==> TextContent(node) == ""
  {
    hide Trim;
    FirstTextAt(node.kids, i);
  }

  lemma {:induction false} FirstTextAt(nodes: seq<Node>, i: nat)
    requires i <= |nodes| && forall j :: 0 <= j < i ==> nodes[j].Elem?
    ensures i < |nodes| && nodes[i].Text? ==> FirstText(nodes) == Some(nodes[i].text)
    ensures i == |nodes| ==> FirstText(nodes) == None
  {
    if i == 0 {
    } else {
      FirstTextAt(nodes[1..], i - 1);
    }
  }

  /** A text stands for itself. */
  lemma TextOfText(s: string)
    ensures TextContent(Text(s)) == Trim(s)
  {
  }
}
