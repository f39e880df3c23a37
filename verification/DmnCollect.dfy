/**
 Reading elements and requirement edges out of a DMN document
 (scripts/dmn_add_di.py, `collect_elements`): one pass over all shapes, and a
 second one over the knowledge sources alone.
 */
module DmnCollect {
  import opened Collections
  import opened Chains
  import opened Xml
  import opened DmnLayers

  /** A requirement; `source` is what `target` requires. */
  datatype Edge = Edge(id: string, source: Id, target: Id)

  datatype Drd = Drd(elements: Elements, edges: seq<Edge>)

  function ShapeKindOf(tag: Tag): Option<ShapeKind> {
    match tag
    case TagDecision => Some(Decision)
    case TagInputData => Some(InputData)
    case TagBusinessKnowledgeModel => Some(BusinessKnowledgeModel)
    case TagKnowledgeSource => Some(KnowledgeSource)
    case TagDecisionService => Some(DecisionService)
    case _ => None
  }

  predicate IsRequirement(tag: Tag) {
    tag.TagInformationRequirement? || tag.TagKnowledgeRequirement? || tag.TagAuthorityRequirement?
  }

  /** Only `#fragment` references point into the document. */
  function LocalHref(href: string): Option<string> {
    if href != [] && href[0] == '#' then Some(href[1..]) else None
  }

  /** What one child of a requirement refers to, if that is a non-empty local name. */
  function TargetOf(ref: Node): Option<Id> {
    match LocalHref(AttrOrEmpty(ref, AttrHref))
    case Some(name) => if name == "" then None else Some(Id(name))
    case None => None
  }

  function EdgeName(requirement: Node, owner: Id, target: Id): string {
    var id := AttrOrEmpty(requirement, AttrId);
    if id != "" then id else "edge_" + owner.name + "_" + target.name
  }

  function RefEdges(requirement: Node, owner: Id, refs: seq<Node>): seq<Edge> {
    if refs == [] then []
    else
      var n := |refs| - 1;
      RefEdges(requirement, owner, refs[..n]) +
      match TargetOf(refs[n])
      case Some(target) => [Edge(EdgeName(requirement, owner, target), target, owner)]
      case None => []
  }

  /** The edges of an element: one for each local reference in its requirements (authority ones only, if asked). */
  function OwnEdges(owner: Id, subs: seq<Node>, authorityOnly: bool): seq<Edge> {
    if subs == [] then []
    else
      var n := |subs| - 1;
      OwnEdges(owner, subs[..n], authorityOnly) +
      if subs[n].Elem? && (if authorityOnly then subs[n].tag.TagAuthorityRequirement? else IsRequirement(subs[n].tag))
      then RefEdges(subs[n], owner, subs[n].kids) else []
  }

  function Sources(edges: seq<Edge>): seq<Id> {
    seq(|edges|, i requires 0 <= i < |edges| => edges[i].source)
  }

  function ShapeId(node: Node): Option<Id> {
    if node.Elem? && ShapeKindOf(node.tag).Some? && AttrOrEmpty(node, AttrId) != ""
    then Some(Id(AttrOrEmpty(node, AttrId))) else None
  }

  function NameOf(node: Node, id: Id): string {
    match GetAttr(node, AttrName) case Some(s) => s case None => id.name
  }

  function ReadShape(drd: Drd, node: Node): Drd {
    match ShapeId(node)
    case None => drd
    case Some(id) =>
      var own := OwnEdges(id, node.kids, false);
      Drd(drd.elements.Set(id, Element(ShapeKindOf(node.tag).value, NameOf(node, id), Sources(own))), drd.edges + own)
  }

  /** The state after the first loop. */
  function FirstPass(children: seq<Node>): Drd {
    if children == [] then Drd(Dict([], map[]), [])
    else ReadShape(FirstPass(children[..|children| - 1]), children[|children| - 1])
  }

  function Depend(elements: Elements, id: Id, more: seq<Id>): Elements {
    if id in elements.at
    then Dict(elements.keys, elements.at[id := elements.at[id].(dependencies := elements.at[id].dependencies + more)])
    else elements
  }

  function ReadKnowledgeSource(drd: Drd, node: Node): Drd {
    if HasTag(node, TagKnowledgeSource) && AttrOrEmpty(node, AttrId) != "" then
      var id := Id(AttrOrEmpty(node, AttrId));
      var own := OwnEdges(id, node.kids, true);
      Drd(Depend(drd.elements, id, Sources(own)), drd.edges + own)
    else drd
  }

  /** The state after the second loop, from the state after the first. */
  function SecondPass(drd: Drd, children: seq<Node>): Drd {
    if children == [] then drd
    else ReadKnowledgeSource(SecondPass(drd, children[..|children| - 1]), children[|children| - 1])
  }

  method ReadRefs(sub: Node, owner: Id, refs: seq<Node>) returns (own: seq<Edge>)
    ensures own == RefEdges(sub, owner, refs)
  {
    own := [];
    for j := 0 to |refs|
      invariant own == RefEdges(sub, owner, refs[..j])
    {
      assert refs[..j + 1][..j] == refs[..j];
      match TargetOf(refs[j]) {
        case Some(target) => own := own + [Edge(EdgeName(sub, owner, target), target, owner)];
        case None =>
      }
    }
    assert refs[..|refs|] == refs;
  }

  method ReadRequirements(owner: Id, subs: seq<Node>, authorityOnly: bool) returns (own: seq<Edge>)
    ensures own == OwnEdges(owner, subs, authorityOnly)
  {
    own := [];
    for i := 0 to |subs|
      invariant own == OwnEdges(owner, subs[..i], authorityOnly)
    {
      var sub := subs[i];
      assert subs[..i + 1][..i] == subs[..i];
      if sub.Elem? && (if authorityOnly then sub.tag.TagAuthorityRequirement? else IsRequirement(sub.tag)) {
        var refs := ReadRefs(sub, owner, sub.kids);
        own := own + refs;
      }
    }
    assert subs[..|subs|] == subs;
  }

  method CollectShapes(children: seq<Node>) returns (elements: Elements, edges: seq<Edge>)
    ensures Drd(elements, edges) == FirstPass(children)
    ensures elements.Valid()
  {
    hide OwnEdges, NameOf;
    elements, edges := Dict([], map[]), [];
    for i := 0 to |children|
      invariant Drd(elements, edges) == FirstPass(children[..i]) && elements.Valid()
    {
      var child := children[i];
      assert children[..i + 1][..i] == children[..i];
      if child.Elem? && ShapeKindOf(child.tag).Some? && AttrOrEmpty(child, AttrId) != "" {
        var id := Id(AttrOrEmpty(child, AttrId));
        var own := ReadRequirements(id, child.kids, false);
        var element := Element(ShapeKindOf(child.tag).value, NameOf(child, id), Sources(own));
        DictSetValid(elements, id, element);
        elements, edges := elements.Set(id, element), edges + own;
      }
    }
    assert children[..|children|] == children;
  }

  method CollectElements(root: Node) returns (elements: Elements, edges: seq<Edge>)
    ensures Drd(elements, edges) == SecondPass(FirstPass(Children(root)), Children(root))
    ensures elements.Valid()
  {
    hide OwnEdges, FirstPass;
    var children := Children(root);
    elements, edges := CollectShapes(children);
    ghost var first := Drd(elements, edges);
    for i := 0 to |children|
      invariant Drd(elements, edges) == SecondPass(first, children[..i]) && elements.Valid()
    {
      var child := children[i];
      assert children[..i + 1][..i] == children[..i];
      if HasTag(child, TagKnowledgeSource) && AttrOrEmpty(child, AttrId) != "" {
        var id := Id(AttrOrEmpty(child, AttrId));
        var own := ReadRequirements(id, child.kids, true);
        elements, edges := Depend(elements, id, Sources(own)), edges + own;
      }
    }
    assert children[..|children|] == children;
  }

  /** No two shapes of the document share an id. */
  ghost predicate DistinctShapes(children: seq<Node>) {
    forall i, j :: 0 <= i < j < |children| && ShapeId(children[i]).Some? && ShapeId(children[j]).Some? ==>
      ShapeId(children[i]) != ShapeId(children[j])
  }

  lemma {:induction false} RefEdgesTarget(requirement: Node, owner: Id, refs: seq<Node>)
    ensures forall e :: e in RefEdges(requirement, owner, refs) ==> e.target == owner
  {
    if refs == [] {
    } else {
      RefEdgesTarget(requirement, owner, refs[..|refs| - 1]);
    }
  }

  /** Authority edges are among the edges the first pass has already read. */
  lemma {:induction false} OwnEdgesWithin(owner: Id, subs: seq<Node>)
    ensures forall e :: e in OwnEdges(owner, subs, true) ==> e in OwnEdges(owner, subs, false)
    ensures forall e :: e in OwnEdges(owner, subs, false) ==> e.target == owner
  {
    if subs == [] {
    } else {
      var n := |subs| - 1;
      OwnEdgesWithin(owner, subs[..n]);
      if subs[n].Elem? { RefEdgesTarget(subs[n], owner, subs[n].kids); }
    }
  }

  lemma SourcesMembers(edges: seq<Edge>, more: seq<Edge>)
    requires forall e :: e in edges ==> e in more
    ensures forall d :: d in Sources(edges) ==> d in Sources(more)
  {
    forall d | d in Sources(edges) ensures d in Sources(more) {
      var i :| 0 <= i < |edges| && edges[i].source == d;
      assert edges[i] in more;
      var j :| 0 <= j < |more| && more[j] == edges[i];
      assert Sources(more)[j] == d;
    }
  }

  /** With distinct ids, the first pass keeps for every shape exactly what that shape says. */
  lemma {:induction false} FirstPassKeeps(children: seq<Node>, i: nat)
    requires DistinctShapes(children) && i < |children| && ShapeId(children[i]).Some?
    ensures var id := ShapeId(children[i]).value; var drd := FirstPass(children);
            && id in drd.elements.at
            && drd.elements.at[id].dependencies == Sources(OwnEdges(id, children[i].kids, false))
            && forall e :: e in OwnEdges(id, children[i].kids, false) ==> e in drd.edges
    decreases |children|
  {
    var n := |children| - 1;
    if i < n {
      FirstPassKeeps(children[..n], i);
      assert ShapeId(children[n]).Some? ==> ShapeId(children[n]) != ShapeId(children[i]);
    }
  }

  /** Two collections that give every element the same dependencies, repeats aside, and the same edges, repeats aside. */
  ghost predicate SameButRepeats(a: Drd, b: Drd) {
    && a.elements.keys == b.elements.keys && a.elements.at.Keys == b.elements.at.Keys
    && (forall id :: id in a.elements.at ==>
          && a.elements.at[id].kind == b.elements.at[id].kind && a.elements.at[id].name == b.elements.at[id].name
          && forall d :: d in a.elements.at[id].dependencies <==> d in b.elements.at[id].dependencies)
    && a.edges <= b.edges
    && forall e :: e in b.edges ==> e in a.edges
  }

  /** With distinct ids, the second pass only repeats what the first has read. */
  lemma {:induction false} SecondPassOnlyRepeats(children: seq<Node>, k: nat)
    requires DistinctShapes(children) && k <= |children|
    ensures SameButRepeats(FirstPass(children), SecondPass(FirstPass(children), children[..k]))
    decreases k
  {
    if k == 0 {
    } else {
      SecondPassOnlyRepeats(children, k - 1);
      var first := FirstPass(children);
      var child := children[k - 1];
      assert children[..k][..k - 1] == children[..k - 1];
      if HasTag(child, TagKnowledgeSource) && AttrOrEmpty(child, AttrId) != "" {
        FirstPassKeeps(children, k - 1);
        var id := ShapeId(child).value;
        OwnEdgesWithin(id, child.kids);
        SourcesMembers(OwnEdges(id, child.kids, true), OwnEdges(id, child.kids, false));
        hide FirstPass, OwnEdges;
        RepeatOnce(first, SecondPass(first, children[..k - 1]), id, OwnEdges(id, child.kids, true));
      }
    }
  }

  lemma RepeatOnce(first: Drd, now: Drd, id: Id, own: seq<Edge>)
    requires SameButRepeats(first, now) && id in first.elements.at
    requires forall e :: e in own ==> e in first.edges
    requires forall d :: d in Sources(own) ==> d in first.elements.at[id].dependencies
    ensures SameButRepeats(first, Drd(Depend(now.elements, id, Sources(own)), now.edges + own))
  {
  }

  // ----- edges and dependencies

  /** Every collected edge ends at an element that has its source among the dependencies. */
  ghost predicate EdgesAreDependencies(drd: Drd) {
    forall e :: e in drd.edges ==> e.target in drd.elements.at && e.source in drd.elements.at[e.target].dependencies
  }

  /** The last shape with an id: the one whose element is kept. */
  function LastShape(children: seq<Node>, id: Id): Option<Node> {
    if children == [] then None
    else
      var n := |children| - 1;
      if ShapeId(children[n]) == Some(id) then Some(children[n]) else LastShape(children[..n], id)
  }

  /** What the shape with an id requires, in all its requirements or in the authority ones. */
  ghost predicate Requires(node: Node, id: Id, d: Id, authorityOnly: bool) {
    node.Elem? && d in Sources(OwnEdges(id, node.kids, authorityOnly))
  }

  ghost predicate IsKnowledgeSource(node: Node, id: Id) {
    HasTag(node, TagKnowledgeSource) && AttrOrEmpty(node, AttrId) != "" && Id(AttrOrEmpty(node, AttrId)) == id
  }

  /** Some knowledge source with the id requires it: the second pass adds it whatever was overwritten. */
  ghost predicate Authorised(children: seq<Node>, id: Id, d: Id) {
    exists k :: 0 <= k < |children| && IsKnowledgeSource(children[k], id) && Requires(children[k], id, d, true)
  }

  ghost predicate Reads(node: Node, e: Edge) {
    ShapeId(node) == Some(e.target) && e in OwnEdges(e.target, node.kids, false)
  }

  ghost predicate EdgeOf(children: seq<Node>, e: Edge) {
    exists i :: 0 <= i < |children| && Reads(children[i], e)
  }

  /** Whatever any shape requires, the last one with its id requires too, or a knowledge source with it has as authority. */
  ghost predicate NothingOverwritten(children: seq<Node>) {
    forall i, d :: 0 <= i < |children| && ShapeId(children[i]).Some? && Requires(children[i], ShapeId(children[i]).value, d, false) ==>
      var id := ShapeId(children[i]).value;
      Authorised(children, id, d) || (LastShape(children, id).Some? && Requires(LastShape(children, id).value, id, d, false))
  }

  lemma {:induction false} FirstPassElements(children: seq<Node>, id: Id)
    ensures id in FirstPass(children).elements.at <==> LastShape(children, id).Some?
    ensures LastShape(children, id).Some? ==>
      && ShapeId(LastShape(children, id).value) == Some(id)
      && FirstPass(children).elements.at[id].dependencies == Sources(OwnEdges(id, LastShape(children, id).value.kids, false))
  {
    hide OwnEdges, NameOf;
    if children == [] {
    } else {
      FirstPassElements(children[..|children| - 1], id);
    }
  }

  lemma EdgeOfLast(children: seq<Node>, node: Node, e: Edge)
    ensures EdgeOf(children + [node], e) <==> EdgeOf(children, e) || Reads(node, e)
    ensures !EdgeOf([], e)
  {
    hide Reads;
    var all := children + [node];
    if EdgeOf(children, e) {
      var i :| 0 <= i < |children| && Reads(children[i], e);
      assert all[i] == children[i];
    }
    assert all[|children|] == node;
  }

  lemma {:induction false} FirstPassEdges(children: seq<Node>, e: Edge)
    ensures e in FirstPass(children).edges <==> EdgeOf(children, e)
  {
    hide NameOf, ShapeId, EdgeOf, OwnEdges, Sources;
    if children == [] {
      EdgeOfLast([], Text(""), e);
    } else {
      var rest, last := children[..|children| - 1], children[|children| - 1];
      assert children == rest + [last];
      FirstPassEdges(rest, e);
      EdgeOfLast(rest, last, e);
      if ShapeId(last).Some? {
        ShapeIsElement(last);
        OwnEdgesWithin(ShapeId(last).value, last.kids);
      }
    }
  }

  lemma ShapeIsElement(node: Node)
    requires ShapeId(node).Some?
    ensures node.Elem?
  {
  }

  lemma SourceIsShape(node: Node, id: Id)
    requires IsKnowledgeSource(node, id)
    ensures ShapeId(node) == Some(id)
  {
  }

  lemma AuthorisedLast(children: seq<Node>, node: Node, id: Id, d: Id)
    ensures Authorised(children + [node], id, d) <==> Authorised(children, id, d) || (IsKnowledgeSource(node, id) && Requires(node, id, d, true))
    ensures !Authorised([], id, d)
  {
    hide IsKnowledgeSource, Requires;
    var all := children + [node];
    if Authorised(children, id, d) {
      var k :| 0 <= k < |children| && IsKnowledgeSource(children[k], id) && Requires(children[k], id, d, true);
      assert all[k] == children[k];
    }
    assert all[|children|] == node;
  }

  /** The second pass adds to every element what its knowledge sources have as authority, and nothing else. */
  lemma {:induction false} SecondPassElements(drd: Drd, children: seq<Node>, id: Id, d: Id)
    requires id in drd.elements.at
    ensures id in SecondPass(drd, children).elements.at
    ensures d in SecondPass(drd, children).elements.at[id].dependencies <==> d in drd.elements.at[id].dependencies || Authorised(children, id, d)
  {
    hide OwnEdges, Sources, Authorised;
    if children == [] {
      AuthorisedLast([], Text(""), id, d);
    } else {
      var rest, last := children[..|children| - 1], children[|children| - 1];
      assert children == rest + [last];
      SecondPassElements(drd, rest, id, d);
      AuthorisedLast(rest, last, id, d);
    }
  }

  lemma {:induction false} SecondPassKeys(drd: Drd, children: seq<Node>)
    ensures SecondPass(drd, children).elements.at.Keys == drd.elements.at.Keys
  {
    hide OwnEdges, Sources;
    if children == [] {
    } else {
      SecondPassKeys(drd, children[..|children| - 1]);
    }
  }

  /** The second pass reads no edge a shape does not have. */
  lemma {:induction false} SecondPassEdges(drd: Drd, children: seq<Node>, k: nat, e: Edge)
    requires k <= |children| && forall e :: e in drd.edges <==> EdgeOf(children, e)
    ensures e in SecondPass(drd, children[..k]).edges <==> EdgeOf(children, e)
    decreases k
  {
    hide OwnEdges, Sources, EdgeOf, ShapeId;
    if k == 0 {
    } else {
      var child := children[k - 1];
      assert children[..k][..k - 1] == children[..k - 1];
      SecondPassEdges(drd, children, k - 1, e);
      if HasTag(child, TagKnowledgeSource) && AttrOrEmpty(child, AttrId) != "" {
        var id := Id(AttrOrEmpty(child, AttrId));
        SourceIsShape(child, id);
        OwnEdgesWithin(id, child.kids);
        if e in OwnEdges(id, child.kids, true) {
          assert EdgeOf(children, e) by { IsEdgeOf(children, k - 1, e); }
        }
      }
    }
  }

  lemma IsEdgeOf(children: seq<Node>, i: nat, e: Edge)
    requires i < |children| && Reads(children[i], e)
    ensures EdgeOf(children, e)
  {
  }

  lemma EdgeRequires(node: Node, id: Id, d: Id)
    requires node.Elem?
    ensures Requires(node, id, d, false) <==> exists e :: e in OwnEdges(id, node.kids, false) && e.source == d
  {
    hide OwnEdges;
    var own := OwnEdges(id, node.kids, false);
    if Requires(node, id, d, false) {
      var i :| 0 <= i < |own| && own[i].source == d;
      assert own[i] in own;
    }
    if e :| e in own && e.source == d {
      var i :| 0 <= i < |own| && own[i] == e;
      assert Sources(own)[i] == d;
    }
  }

  /** After both passes the edges are those any shape has, whatever was overwritten. */
  lemma EdgesRead(children: seq<Node>, e: Edge)
    ensures e in SecondPass(FirstPass(children), children).edges <==> EdgeOf(children, e)
  {
    hide OwnEdges, Sources, FirstPass, SecondPass, ShapeId, EdgeOf;
    forall f ensures f in FirstPass(children).edges <==> EdgeOf(children, f) { FirstPassEdges(children, f); }
    SecondPassEdges(FirstPass(children), children, |children|, e);
    assert children[..|children|] == children;
  }

  /** And the elements have the ids of the shapes; whatever an edge leads to is one. */
  lemma ElementsRead(children: seq<Node>, id: Id)
    ensures id in SecondPass(FirstPass(children), children).elements.at <==> LastShape(children, id).Some?
    ensures forall e: Edge :: e.target == id && EdgeOf(children, e) ==> LastShape(children, id).Some?
  {
    hide OwnEdges, Sources, FirstPass, SecondPass, ShapeId, LastShape, EdgeOf;
    FirstPassElements(children, id);
    SecondPassKeys(FirstPass(children), children);
    forall e: Edge | e.target == id && EdgeOf(children, e) ensures LastShape(children, id).Some? {
      var i := ShapeOf(children, e);
      LastOfShapes(children, i);
    }
  }

  /** What is collected and what was kept agree exactly when no overwritten shape required more than is kept. */
  lemma EdgesAreDependenciesIff(children: seq<Node>)
    ensures EdgesAreDependencies(SecondPass(FirstPass(children), children)) <==> NothingOverwritten(children)
  {
    hide OwnEdges, Sources, FirstPass, SecondPass, ShapeId, LastShape, Authorised, Requires, EdgeOf;
    var drd := SecondPass(FirstPass(children), children);
    forall e ensures e in drd.edges <==> EdgeOf(children, e) { EdgesRead(children, e); }
    forall id, d ensures Kept(drd, id, d) <==>
      (LastShape(children, id).Some? && (Authorised(children, id, d) || Requires(LastShape(children, id).value, id, d, false))) {
      KeptMeans(children, id, d);
    }
    if EdgesAreDependencies(drd) {
      forall i, d | 0 <= i < |children| && ShapeId(children[i]).Some? && Requires(children[i], ShapeId(children[i]).value, d, false)
        ensures Kept(drd, ShapeId(children[i]).value, d)
      {
        var id := ShapeId(children[i]).value;
        ShapeIsElement(children[i]);
        EdgeRequires(children[i], id, d);
        var e :| e in OwnEdges(id, children[i].kids, false) && e.source == d;
        OwnEdgesWithin(id, children[i].kids);
        IsEdgeOf(children, i, e);
      }
    }
    if NothingOverwritten(children) {
      forall e | e in drd.edges ensures Kept(drd, e.target, e.source) {
        var i := ShapeOf(children, e);
        ShapeIsElement(children[i]);
        EdgeRequires(children[i], e.target, e.source);
        LastOfShapes(children, i);
      }
    }
  }

  /** The element with the id depends on `d`. */
  ghost predicate Kept(drd: Drd, id: Id, d: Id) {
    id in drd.elements.at && d in drd.elements.at[id].dependencies
  }

  lemma KeptMeans(children: seq<Node>, id: Id, d: Id)
    ensures Kept(SecondPass(FirstPass(children), children), id, d) <==>
      (LastShape(children, id).Some? && (Authorised(children, id, d) || Requires(LastShape(children, id).value, id, d, false)))
  {
    hide OwnEdges, Sources, FirstPass, SecondPass, ShapeId, LastShape, Authorised;
    FirstPassElements(children, id);
    SecondPassKeys(FirstPass(children), children);
    if id in FirstPass(children).elements.at {
      ShapeIsElement(LastShape(children, id).value);
      SecondPassElements(FirstPass(children), children, id, d);
    }
  }

  lemma ShapeOf(children: seq<Node>, e: Edge) returns (i: nat)
    requires EdgeOf(children, e)
    ensures i < |children| && Reads(children[i], e)
  {
    i :| 0 <= i < |children| && Reads(children[i], e);
  }

  lemma {:induction false} LastOfShapes(children: seq<Node>, i: nat)
    requires i < |children| && ShapeId(children[i]).Some?
    ensures LastShape(children, ShapeId(children[i]).value).Some?
    ensures DistinctShapes(children) ==> LastShape(children, ShapeId(children[i]).value) == Some(children[i])
  {
    hide ShapeId;
    var n := |children| - 1;
    if i == n {
    } else {
      assert children[..n][i] == children[i];
      LastOfShapes(children[..n], i);
      assert DistinctShapes(children) ==> ShapeId(children[n]) != ShapeId(children[i]);
    }
  }

  /** With distinct ids nothing is overwritten. */
  lemma DistinctOverwriteNothing(children: seq<Node>)
    requires DistinctShapes(children)
    ensures NothingOverwritten(children)
  {
    hide Requires, ShapeId, LastShape, Authorised;
    forall i | 0 <= i < |children| && ShapeId(children[i]).Some?
      ensures LastShape(children, ShapeId(children[i]).value) == Some(children[i])
    {
      LastOfShapes(children, i);
    }
  }

  /** So with distinct ids every collected edge is a dependency, after either pass. */
  lemma DistinctEdgesAreDependencies(children: seq<Node>)
    requires DistinctShapes(children)
    ensures EdgesAreDependencies(FirstPass(children)) && EdgesAreDependencies(SecondPass(FirstPass(children), children))
  {
    hide FirstPass, SecondPass, DistinctShapes, NothingOverwritten;
    DistinctOverwriteNothing(children);
    EdgesAreDependenciesIff(children);
    SecondPassOnlyRepeats(children, |children|);
    assert children[..|children|] == children;
  }
}
