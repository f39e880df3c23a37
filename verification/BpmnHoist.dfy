/**
 Lanes and associations hoisted onto the process (`collectLanesDeep`,
 `collectAssociationsDeep` in packages/js/sdk/src/bpmn/parser.ts), against the
 one-pass reader whose order they reproduce: a stack machine over opening tags,
 texts and closing tags.
 */
module BpmnHoist {
  import opened Collections
  import opened Xml
  import opened BpmnModel

  // ----- the recursive walk

  function LaneRefs(kids: seq<Node>): seq<string> {
    if kids == [] then []
    else
      var n := |kids| - 1;
      LaneRefs(kids[..n]) +
      if HasTag(kids[n], TagFlowNodeRef) && TextContent(kids[n]) != "" then [TextContent(kids[n])] else []
  }

  function LaneOf(node: Node): Lane {
    Lane(AttrOrEmpty(node, AttrId), GetAttr(node, AttrName), LaneRefs(Children(node)))
  }

  /** Lanes in the order of their closing tags: content before parent. */
  function LanesIn(kids: seq<Node>): seq<Lane> {
    if kids == [] then []
    else
      var n := |kids| - 1;
      LanesIn(kids[..n]) + LanesOf(kids[n])
  }

  function LanesOf(node: Node): seq<Lane> {
    if node.Text? then []
    else LanesIn(node.kids) + if node.tag == TagLane then [LaneOf(node)] else []
  }

  function AssociationOf(node: Node): Association {
    Association(AttrOrEmpty(node, AttrId), GetAttr(node, AttrSourceRef), GetAttr(node, AttrTargetRef), GetAttr(node, AttrAssociationDirection))
  }

  function AssociationsIn(kids: seq<Node>): seq<Association> {
    if kids == [] then []
    else
      var n := |kids| - 1;
      AssociationsIn(kids[..n]) + AssociationsOf(kids[n])
  }

  /** An association's own content is not searched. */
  function AssociationsOf(node: Node): seq<Association> {
    if node.Text? then []
    else if node.tag == TagAssociation then [AssociationOf(node)]
    else AssociationsIn(node.kids)
  }

  lemma NothingHoisted()
    ensures LanesIn([]) == [] && AssociationsIn([]) == []
  {
  }

  lemma RunsLast(kids: seq<Node>, kid: Node)
    ensures EventsIn(kids + [kid]) == EventsIn(kids) + EventsOf(kid)
    ensures LanesIn(kids + [kid]) == LanesIn(kids) + LanesOf(kid)
    ensures AssociationsIn(kids + [kid]) == AssociationsIn(kids) + AssociationsOf(kid)
  {
    assert (kids + [kid])[..|kids + [kid]| - 1] == kids;
  }

  method ParseLane(node: Node) returns (lane: Lane)
    ensures lane == LaneOf(node)
  {
    hide TextContent, LaneRefs;
    LaneRefsLast([], node);
    var kids := Children(node);
    var refs: seq<string> := [];
    for i := 0 to |kids|
      invariant refs == LaneRefs(kids[..i])
    {
      assert kids[..i + 1] == kids[..i] + [kids[i]];
      LaneRefsLast(kids[..i], kids[i]);
      if HasTag(kids[i], TagFlowNodeRef) && TextContent(kids[i]) != "" {
        refs := refs + [TextContent(kids[i])];
      }
    }
    assert kids[..|kids|] == kids;
    lane := Lane(AttrOrEmpty(node, AttrId), GetAttr(node, AttrName), refs);
  }

  lemma LanesOfElement(node: Node)
    ensures LanesOf(node) == if node.Elem? then LanesIn(Children(node)) + (if node.tag == TagLane then [LaneOf(node)] else []) else []
  {
  }

  lemma AssociationsOfElement(node: Node)
    ensures AssociationsOf(node) ==
      if node.Text? then [] else if node.tag == TagAssociation then [AssociationOf(node)] else AssociationsIn(Children(node))
  {
  }

  method CollectLanesDeep(node: Node, lanes: seq<Lane>) returns (lanes': seq<Lane>)
    ensures lanes' == lanes + LanesIn(Children(node))
    decreases node
  {
    hide LaneOf, LanesIn, LanesOf;
    lanes' := lanes;
    NothingHoisted();
    if node.Elem? {
      for i := 0 to |node.kids|
        invariant lanes' == lanes + LanesIn(node.kids[..i])
      {
        var child := node.kids[i];
        assert node.kids[..i + 1] == node.kids[..i] + [child];
        RunsLast(node.kids[..i], child);
        LanesOfElement(child);
        ghost var own := LanesIn(node.kids[..i]);
        CatAssociates(lanes, own, LanesOf(child));
        if child.Elem? {
          ghost var before := lanes';
          lanes' := CollectLanesDeep(child, lanes');
          if child.tag == TagLane {
            var lane := ParseLane(child);
            CatAssociates(before, LanesIn(Children(child)), [lane]);
            lanes' := lanes' + [lane];
          }
        }
      }
      assert node.kids[..|node.kids|] == node.kids;
    }
  }

  method CollectAssociationsDeep(node: Node, associations: seq<Association>) returns (associations': seq<Association>)
    ensures associations' == associations + AssociationsIn(Children(node))
    decreases node
  {
    hide AssociationOf, AssociationsIn, AssociationsOf;
    associations' := associations;
    NothingHoisted();
    if node.Elem? {
      for i := 0 to |node.kids|
        invariant associations' == associations + AssociationsIn(node.kids[..i])
      {
        var child := node.kids[i];
        assert node.kids[..i + 1] == node.kids[..i] + [child];
        RunsLast(node.kids[..i], child);
        AssociationsOfElement(child);
        CatAssociates(associations, AssociationsIn(node.kids[..i]), AssociationsOf(child));
        if child.Elem? {
          if child.tag == TagAssociation {
            associations' := associations' + [AssociationOf(child)];
          } else {
            associations' := CollectAssociationsDeep(child, associations');
          }
        }
      }
      assert node.kids[..|node.kids|] == node.kids;
    }
  }

  // ----- the one-pass reader

  datatype Event = Open(tag: Tag, attrs: map<Attr, string>) | Chars(text: string) | Close

  function EventsIn(kids: seq<Node>): seq<Event> {
    if kids == [] then []
    else
      var n := |kids| - 1;
      EventsIn(kids[..n]) + EventsOf(kids[n])
  }

  /** The document as the reader sees it. */
  function EventsOf(node: Node): seq<Event> {
    if node.Text? then [Chars(node.text)] else [Open(node.tag, node.attrs)] + EventsIn(node.kids) + [Close]
  }

  /** One open element: its first text so far, and the references read off its closed children. */
  datatype Frame = Frame(tag: Tag, attrs: map<Attr, string>, firstText: Option<string>, refs: seq<string>)

  /** The stack of open elements, innermost last, and what has been put out. */
  datatype Reader = Reader(stack: seq<Frame>, lanes: seq<Lane>, associations: seq<Association>, inAssociation: nat)

  function FrameText(f: Frame): string {
    match f.firstText case Some(s) => Trim(s) case None => ""
  }

  function AttrIn(attrs: map<Attr, string>, name: Attr): Option<string> {
    if name in attrs then Some(attrs[name]) else None
  }

  function FrameLane(f: Frame): Lane {
    Lane(if AttrId in f.attrs then f.attrs[AttrId] else "", AttrIn(f.attrs, AttrName), f.refs)
  }

  /** An association as its opening tag gives it. */
  function Opened(attrs: map<Attr, string>): Association {
    Association(if AttrId in attrs then attrs[AttrId] else "",
                AttrIn(attrs, AttrSourceRef), AttrIn(attrs, AttrTargetRef), AttrIn(attrs, AttrAssociationDirection))
  }

  function Step(r: Reader, e: Event): Reader {
    match e
    case Open(tag, attrs) =>
      Reader(r.stack + [Frame(tag, attrs, None, [])], r.lanes,
             if tag == TagAssociation && r.inAssociation == 0 then r.associations + [Opened(attrs)] else r.associations,
             if tag == TagAssociation then r.inAssociation + 1 else r.inAssociation)
    case Chars(text) =>
      if r.stack == [] then r
      else
        var top := r.stack[|r.stack| - 1];
        if top.firstText.Some? then r
        else r.(stack := r.stack[..|r.stack| - 1] + [top.(firstText := Some(text))])
    case Close =>
      if r.stack == [] then r
      else
        var top, below := r.stack[|r.stack| - 1], r.stack[..|r.stack| - 1];
        Reader(CreditRef(below, top),
               if top.tag == TagLane then r.lanes + [FrameLane(top)] else r.lanes,
               r.associations,
               if top.tag == TagAssociation && r.inAssociation > 0 then r.inAssociation - 1 else r.inAssociation)
  }

  /** A closed reference element hands its text to its parent. */
  function CreditRef(stack: seq<Frame>, closed: Frame): seq<Frame> {
    if closed.tag == TagFlowNodeRef && FrameText(closed) != "" && stack != [] then
      var parent := stack[|stack| - 1];
      stack[..|stack| - 1] + [parent.(refs := parent.refs + [FrameText(closed)])]
    else stack
  }

  function Run(r: Reader, events: seq<Event>): Reader {
    if events == [] then r
    else Step(Run(r, events[..|events| - 1]), events[|events| - 1])
  }

  lemma {:induction false} RunConcat(r: Reader, a: seq<Event>, b: seq<Event>)
    ensures Run(r, a + b) == Run(Run(r, a), b)
  {
    if b == [] {
      assert a + b == a;
    } else {
      var rest, last := b[..|b| - 1], b[|b| - 1];
      assert (a + b)[..|a + b| - 1] == a + rest;
      RunConcat(r, a, rest);
    }
  }

  lemma RunOne(r: Reader, e: Event)
    ensures Run(r, [e]) == Step(r, e)
  {
    assert [e][..0] == [];
    assert Run(r, []) == r;
  }

  /** The innermost open element after some of its children have passed. */
  function Filled(f: Frame, kids: seq<Node>): Frame {
    f.(firstText := match FirstTextFrom(f, kids) case Some(s) => Some(s) case None => None, refs := f.refs + LaneRefs(kids))
  }

  function FirstTextFrom(f: Frame, kids: seq<Node>): Option<string> {
    if f.firstText.Some? then f.firstText else FirstText(kids)
  }

  lemma {:induction false} FirstTextLast(kids: seq<Node>, kid: Node)
    ensures FirstText(kids + [kid]) == match FirstText(kids)
      case Some(s) => Some(s)
      case None => if kid.Text? then Some(kid.text) else None
    ensures FirstText([]) == None
  {
    if kids == [] {
      assert [kid][1..] == [];
      assert kids + [kid] == [kid];
    } else {
      assert (kids + [kid])[1..] == kids[1..] + [kid];
      FirstTextLast(kids[1..], kid);
    }
  }

  lemma LaneRefsLast(kids: seq<Node>, kid: Node)
    ensures LaneRefs(kids + [kid]) == LaneRefs(kids) + if HasTag(kid, TagFlowNodeRef) && TextContent(kid) != "" then [TextContent(kid)] else []
    ensures LaneRefs([]) == []
  {
    assert (kids + [kid])[..|kids + [kid]| - 1] == kids;
  }

  /** Associations are put out only outside of associations. */
  function Heard(inAssociation: nat, found: seq<Association>): seq<Association> {
    if inAssociation == 0 then found else []
  }

  /** Passing over the children of the innermost open element. */
  lemma {:induction false} ReadKids(stack: seq<Frame>, top: Frame, lanes: seq<Lane>, associations: seq<Association>, depth: nat, kids: seq<Node>)
    ensures Run(Reader(stack + [top], lanes, associations, depth), EventsIn(kids)) ==
      Reader(stack + [Filled(top, kids)], lanes + LanesIn(kids), associations + Heard(depth, AssociationsIn(kids)), depth)
    decreases kids, 0
  {
    hide *;
    var r := Reader(stack + [top], lanes, associations, depth);
    if kids == [] {
      ReadNothing(r, stack, top, lanes, associations, depth);
    } else {
      var rest, kid := kids[..|kids| - 1], kids[|kids| - 1];
      assert kids == rest + [kid];
      ReadKids(stack, top, lanes, associations, depth, rest);
      ReadNode(stack, Filled(top, rest), lanes + LanesIn(rest), associations + Heard(depth, AssociationsIn(rest)), depth, kid);
      RunConcat(r, EventsIn(rest), EventsOf(kid));
      RunsLast(rest, kid);
      FilledLast(top, rest, kid);
      CatAssociates(lanes, LanesIn(rest), LanesOf(kid));
      HeardConcat(depth, AssociationsIn(rest), AssociationsOf(kid));
      CatAssociates(associations, Heard(depth, AssociationsIn(rest)), Heard(depth, AssociationsOf(kid)));
    }
  }

  lemma ReadNothing(r: Reader, stack: seq<Frame>, top: Frame, lanes: seq<Lane>, associations: seq<Association>, depth: nat)
    requires r == Reader(stack + [top], lanes, associations, depth)
    ensures Run(r, EventsIn([])) ==
      Reader(stack + [Filled(top, [])], lanes + LanesIn([]), associations + Heard(depth, AssociationsIn([])), depth)
  {
    assert Filled(top, []) == top;
    assert lanes + [] == lanes && associations + [] == associations;
  }

  lemma HeardConcat(depth: nat, a: seq<Association>, b: seq<Association>)
    ensures Heard(depth, a) + Heard(depth, b) == Heard(depth, a + b)
  {
  }

  lemma FilledLast(top: Frame, rest: seq<Node>, kid: Node)
    ensures Filled(Filled(top, rest), [kid]) == Filled(top, rest + [kid])
  {
    hide TextContent, LaneRefs, FirstText;
    FirstTextLast(rest, kid);
    FirstTextLast([], kid);
    LaneRefsLast(rest, kid);
    LaneRefsLast([], kid);
    assert [] + [kid] == [kid];
    CatAssociates(top.refs, LaneRefs(rest), LaneRefs([kid]));
  }

  /** Passing over one node under the innermost open element. */
  lemma {:induction false} ReadNode(stack: seq<Frame>, top: Frame, lanes: seq<Lane>, associations: seq<Association>, depth: nat, node: Node)
    ensures Run(Reader(stack + [top], lanes, associations, depth), EventsOf(node)) ==
      Reader(stack + [Filled(top, [node])], lanes + LanesOf(node), associations + Heard(depth, AssociationsOf(node)), depth)
    decreases node, 1
  {
    hide *;
    if node.Text? {
      ReadText(stack, top, lanes, associations, depth, node.text);
    } else {
      var r := Reader(stack + [top], lanes, associations, depth);
      var opening := Open(node.tag, node.attrs);
      var entered := Step(r, opening);
      var frame := Frame(node.tag, node.attrs, None, []);
      Enters(r, node, entered);
      RunOne(r, opening);
      ReadKids(stack + [top], frame, lanes, entered.associations, entered.inAssociation, node.kids);
      RunConcat(r, [opening], EventsIn(node.kids));
      RunConcat(r, [opening] + EventsIn(node.kids), [Close]);
      RunOne(Run(entered, EventsIn(node.kids)), Close);
      ClosesRight(stack, top, lanes, associations, depth, node, Run(entered, EventsIn(node.kids)));
    }
  }

  lemma Enters(r: Reader, node: Node, entered: Reader)
    requires node.Elem? && entered == Step(r, Open(node.tag, node.attrs))
    ensures entered.stack == r.stack + [Frame(node.tag, node.attrs, None, [])] && entered.lanes == r.lanes
    ensures EventsOf(node) == [Open(node.tag, node.attrs)] + EventsIn(node.kids) + [Close]
  {
  }

  lemma ReadText(stack: seq<Frame>, top: Frame, lanes: seq<Lane>, associations: seq<Association>, depth: nat, text: string)
    ensures Run(Reader(stack + [top], lanes, associations, depth), EventsOf(Text(text))) ==
      Reader(stack + [Filled(top, [Text(text)])], lanes + LanesOf(Text(text)), associations + Heard(depth, AssociationsOf(Text(text))), depth)
  {
    var r := Reader(stack + [top], lanes, associations, depth);
    RunOne(r, Chars(text));
    LaneRefsLast([], Text(text));
    assert [] + [Text(text)] == [Text(text)];
    assert FirstText([Text(text)]) == Some(text);
    assert r.stack[..|r.stack| - 1] == stack;
    assert top.refs + [] == top.refs;
    assert lanes + [] == lanes && associations + [] == associations;
  }

  lemma ClosesRight(stack: seq<Frame>, top: Frame, lanes: seq<Lane>, associations: seq<Association>, depth: nat, node: Node, full: Reader)
    requires node.Elem?
    requires var entered := Step(Reader(stack + [top], lanes, associations, depth), Open(node.tag, node.attrs));
      full == Reader((stack + [top]) + [Filled(Frame(node.tag, node.attrs, None, []), node.kids)], lanes + LanesIn(node.kids),
                     entered.associations + Heard(entered.inAssociation, AssociationsIn(node.kids)), entered.inAssociation)
    ensures Step(full, Close) ==
      Reader(stack + [Filled(top, [node])], lanes + LanesOf(node), associations + Heard(depth, AssociationsOf(node)), depth)
  {
    hide LanesIn, AssociationsIn, LaneRefs, Trim, FirstText, Filled;
    var closed := Filled(Frame(node.tag, node.attrs, None, []), node.kids);
    ClosedReads(node, closed);
    hide FrameText, FrameLane, LaneOf, TextContent;
    assert full.stack[..|full.stack| - 1] == stack + [top];
    assert AssociationOf(Elem(node.tag, node.attrs, [])) == AssociationOf(node);
    NodeFills(top, node);
    assert CreditRef(stack + [top], closed) == stack + [Filled(top, [node])];
  }

  lemma ClosedReads(node: Node, closed: Frame)
    requires node.Elem? && closed == Filled(Frame(node.tag, node.attrs, None, []), node.kids)
    ensures closed.tag == node.tag && FrameText(closed) == TextContent(node) && FrameLane(closed) == LaneOf(node)
  {
    hide LaneRefs, Trim, FirstText;
    assert [] + LaneRefs(node.kids) == LaneRefs(node.kids);
  }

  lemma NodeFills(top: Frame, node: Node)
    requires node.Elem?
    ensures Filled(top, [node]) ==
      if HasTag(node, TagFlowNodeRef) && TextContent(node) != "" then top.(refs := top.refs + [TextContent(node)]) else top
  {
    hide TextContent;
    FirstTextLast([], node);
    LaneRefsLast([], node);
    assert [] + [node] == [node];
  }

  /** The reader before the first event of a document. */
  const START := Reader([], [], [], 0)

  /**
   Reading the process element in one pass puts out exactly the lanes and associations
   the recursive walks collect, in the same order.
   */
  lemma WalkEqualsStream(process: Node)
    requires process.Elem? && process.tag != TagLane && process.tag != TagAssociation
    ensures Run(START, EventsOf(process)).lanes == LanesIn(Children(process))
    ensures Run(START, EventsOf(process)).associations == AssociationsIn(Children(process))
    ensures Run(START, EventsOf(process)).stack == []
  {
    hide LanesIn, AssociationsIn, LaneRefs, EventsIn, Run;
    var opening := Open(process.tag, process.attrs);
    var frame := Frame(process.tag, process.attrs, None, []);
    RunOne(START, opening);
    assert [] + [frame] == [frame];
    ReadKids([], frame, [], [], 0, process.kids);
    RunConcat(START, [opening], EventsIn(process.kids));
    RunConcat(START, [opening] + EventsIn(process.kids), [Close]);
    RunOne(Run(START, [opening] + EventsIn(process.kids)), Close);
  }

  // ----- what the hoisted associations say

  /** The association elements that are in no other association, in document order. */
  function AssociationElements(kids: seq<Node>): seq<Node> {
    if kids == [] then []
    else
      var n := |kids| - 1;
      AssociationElements(kids[..n]) +
      if kids[n].Text? then [] else if kids[n].tag == TagAssociation then [kids[n]] else AssociationElements(kids[n].kids)
  }

  ghost predicate SaysAssociation(a: Association, e: Node) {
    && HasTag(e, TagAssociation) && a.id == AttrOrEmpty(e, AttrId) && a.direction == GetAttr(e, AttrAssociationDirection)
    && a.sourceRef == GetAttr(e, AttrSourceRef) && a.targetRef == GetAttr(e, AttrTargetRef)
  }

  /** One for one and in order, with both ends the way round they are written. */
  lemma {:induction false} AssociationsSay(kids: seq<Node>)
    ensures |AssociationsIn(kids)| == |AssociationElements(kids)|
    ensures forall i :: 0 <= i < |AssociationElements(kids)| ==> SaysAssociation(AssociationsIn(kids)[i], AssociationElements(kids)[i])
  {
    hide SaysAssociation;
    if kids == [] {
    } else {
      var rest, kid := kids[..|kids| - 1], kids[|kids| - 1];
      AssociationsSay(rest);
      if kid.Elem? && kid.tag != TagAssociation {
        AssociationsSay(kid.kids);
      } else if kid.Elem? {
        OneSays(kid);
      }
    }
  }

  lemma OneSays(e: Node)
    requires HasTag(e, TagAssociation)
    ensures SaysAssociation(AssociationOf(e), e)
  {
  }
}
