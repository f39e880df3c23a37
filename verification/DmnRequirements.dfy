/**
 Which edges and dependencies a DMN document gives (scripts/dmn_add_di.py,
 `collect_elements`), said in terms of its tags and attributes alone.
 */
module DmnRequirements {
  import opened Collections
  import opened Chains
  import opened Xml
  import opened DmnLayers
  import opened DmnCollect

  // ----- what the document says

  /** The shapes and their kinds. */
  ghost predicate IsShapeOf(tag: Tag, kind: ShapeKind) {
    || (tag == TagDecision && kind == Decision)
    || (tag == TagInputData && kind == InputData)
    || (tag == TagBusinessKnowledgeModel && kind == BusinessKnowledgeModel)
    || (tag == TagKnowledgeSource && kind == KnowledgeSource)
    || (tag == TagDecisionService && kind == DecisionService)
  }

  /** A shape with this id. */
  ghost predicate HasShapeId(shape: Node, id: Id) {
    shape.Elem? && (exists kind :: IsShapeOf(shape.tag, kind)) && GetAttr(shape, AttrId) == Some(id.name) && id.name != ""
  }

  ghost predicate IsShape(shape: Node) {
    exists id :: HasShapeId(shape, id)
  }

  /** An information, knowledge or authority requirement; only the last, if asked. */
  ghost predicate IsRequirementElement(sub: Node, authorityOnly: bool) {
    HasTag(sub, TagAuthorityRequirement) || (!authorityOnly && (HasTag(sub, TagInformationRequirement) || HasTag(sub, TagKnowledgeRequirement)))
  }

  /** The reference points to this id in the document itself. */
  ghost predicate RefersTo(ref: Node, source: Id) {
    source.name != "" && GetAttr(ref, AttrHref) == Some("#" + source.name)
  }

  ghost predicate RefersSomewhere(ref: Node) {
    exists source :: RefersTo(ref, source)
  }

  /** The edge is what the reference, in this requirement of its target, stands for. */
  ghost predicate StandsFor(e: Edge, requirement: Node, ref: Node) {
    && RefersTo(ref, e.source)
    && if GetAttr(requirement, AttrId) == None || GetAttr(requirement, AttrId) == Some("") then e.id == "edge_" + e.target.name + "_" + e.source.name
       else GetAttr(requirement, AttrId) == Some(e.id)
  }

  // ----- single elements

  lemma ShapeIdMeans(shape: Node, id: Id)
    ensures ShapeId(shape) == Some(id) <==> HasShapeId(shape, id)
  {
    forall kind ensures shape.Elem? ==> (ShapeKindOf(shape.tag) == Some(kind) <==> IsShapeOf(shape.tag, kind)) {
      if shape.Elem? { KindMeans(shape.tag, kind); }
    }
  }

  lemma KindMeans(tag: Tag, kind: ShapeKind)
    ensures ShapeKindOf(tag) == Some(kind) <==> IsShapeOf(tag, kind)
  {
  }

  lemma TargetMeans(ref: Node, source: Id)
    ensures TargetOf(ref) == Some(source) <==> RefersTo(ref, source)
  {
    var href := AttrOrEmpty(ref, AttrHref);
    if href != [] && href[0] == '#' {
      assert href == "#" + href[1..];
    }
    assert ("#" + source.name)[1..] == source.name;
  }

  lemma RefersSomewhereMeans(ref: Node)
    ensures TargetOf(ref).Some? <==> RefersSomewhere(ref)
  {
    hide TargetOf, RefersTo;
    if TargetOf(ref).Some? { TargetMeans(ref, TargetOf(ref).value); }
    if source :| RefersTo(ref, source) { TargetMeans(ref, source); }
  }

  lemma EdgeStands(requirement: Node, owner: Id, ref: Node)
    requires TargetOf(ref).Some?
    ensures StandsFor(Edge(EdgeName(requirement, owner, TargetOf(ref).value), TargetOf(ref).value, owner), requirement, ref)
  {
    TargetMeans(ref, TargetOf(ref).value);
    hide TargetOf, RefersTo;
  }

  // ----- the edges of one requirement, of one shape, of the document

  /** The edges stand, in order, for the references listed, and these are all there are. */
  ghost predicate ListsRefs(at: seq<nat>, edges: seq<Edge>, requirement: Node, owner: Id, refs: seq<Node>) {
    && |at| == |edges| && (forall m, n :: 0 <= m < n < |at| ==> at[m] < at[n])
    && (forall m :: 0 <= m < |at| ==> at[m] < |refs| && edges[m].target == owner && StandsFor(edges[m], requirement, refs[at[m]]))
    && (forall k :: 0 <= k < |refs| && RefersSomewhere(refs[k]) ==> k in at)
  }

  lemma {:induction false} RefsListed(requirement: Node, owner: Id, refs: seq<Node>) returns (at: seq<nat>)
    ensures ListsRefs(at, RefEdges(requirement, owner, refs), requirement, owner, refs)
  {
    hide TargetOf, EdgeName, RefersSomewhere, StandsFor;
    at := [];
    if refs == [] {
    } else {
      var n := |refs| - 1;
      at := RefsListed(requirement, owner, refs[..n]);
      RefersSomewhereMeans(refs[n]);
      if TargetOf(refs[n]).Some? {
        EdgeStands(requirement, owner, refs[n]);
        at := at + [n];
      }
    }
  }

  /** The same over the requirements of one shape: the places are pairs, in document order. */
  ghost predicate ListsOwn(at: seq<(nat, nat)>, edges: seq<Edge>, owner: Id, subs: seq<Node>, authorityOnly: bool) {
    && |at| == |edges| && (forall m, n :: 0 <= m < n < |at| ==> at[m].0 < at[n].0 || (at[m].0 == at[n].0 && at[m].1 < at[n].1))
    && (forall m :: 0 <= m < |at| ==> OwnAt(edges[m], at[m].0, at[m].1, owner, subs, authorityOnly))
    && (forall j, k :: RefersAt(j, k, subs, authorityOnly) ==> (j, k) in at)
  }

  ghost predicate OwnAt(e: Edge, j: int, k: int, owner: Id, subs: seq<Node>, authorityOnly: bool) {
    && RefersAt(j, k, subs, authorityOnly) && e.target == owner && StandsFor(e, subs[j], subs[j].kids[k])
  }

  ghost predicate RefersAt(j: int, k: int, subs: seq<Node>, authorityOnly: bool) {
    && 0 <= j < |subs| && IsRequirementElement(subs[j], authorityOnly) && 0 <= k < |subs[j].kids| && RefersSomewhere(subs[j].kids[k])
  }

  function Pairs(j: nat, ks: seq<nat>): seq<(nat, nat)> {
    seq(|ks|, i requires 0 <= i < |ks| => (j, ks[i]))
  }

  lemma {:induction false} OwnListed(owner: Id, subs: seq<Node>, authorityOnly: bool) returns (at: seq<(nat, nat)>)
    ensures ListsOwn(at, OwnEdges(owner, subs, authorityOnly), owner, subs, authorityOnly)
  {
    hide RefEdges, RefersAt, OwnAt, IsRequirementElement, ListsOwn, ListsRefs;
    if subs == [] {
      at := [];
      NothingOwned(owner, authorityOnly);
    } else {
      var n := |subs| - 1;
      at := OwnListed(owner, subs[..n], authorityOnly);
      RequirementMeans(subs[n], authorityOnly);
      var own, sub := OwnEdges(owner, subs[..n], authorityOnly), subs[n];
      if IsRequirementElement(sub, authorityOnly) {
        var ks := RefsListed(sub, owner, sub.kids);
        OwnMore(at, own, owner, subs, authorityOnly, ks, RefEdges(sub, owner, sub.kids));
        at := at + Pairs(n, ks);
      } else {
        OwnSame(at, own, owner, subs, authorityOnly);
        assert own + [] == own;
      }
    }
  }

  lemma RequirementMeans(sub: Node, authorityOnly: bool)
    ensures IsRequirementElement(sub, authorityOnly) <==>
      sub.Elem? && (if authorityOnly then sub.tag.TagAuthorityRequirement? else IsRequirement(sub.tag))
  {
  }

  lemma NothingOwned(owner: Id, authorityOnly: bool)
    ensures ListsOwn([], OwnEdges(owner, [], authorityOnly), owner, [], authorityOnly)
  {
  }

  lemma RefersBefore(subs: seq<Node>, j: int, k: int, authorityOnly: bool)
    requires subs != []
    ensures j < |subs| - 1 ==> (RefersAt(j, k, subs, authorityOnly) <==> RefersAt(j, k, subs[..|subs| - 1], authorityOnly))
    ensures RefersAt(j, k, subs, authorityOnly) ==> 0 <= j < |subs| && IsRequirementElement(subs[j], authorityOnly)
  {
    hide IsRequirementElement, RefersSomewhere;
  }

  lemma OwnBefore(e: Edge, subs: seq<Node>, j: int, k: int, owner: Id, authorityOnly: bool)
    requires subs != [] && OwnAt(e, j, k, owner, subs[..|subs| - 1], authorityOnly)
    ensures OwnAt(e, j, k, owner, subs, authorityOnly) && j < |subs| - 1
  {
    hide IsRequirementElement, RefersSomewhere, StandsFor;
  }

  lemma OwnSame(at: seq<(nat, nat)>, edges: seq<Edge>, owner: Id, subs: seq<Node>, authorityOnly: bool)
    requires subs != [] && ListsOwn(at, edges, owner, subs[..|subs| - 1], authorityOnly)
    requires !IsRequirementElement(subs[|subs| - 1], authorityOnly)
    ensures ListsOwn(at, edges, owner, subs, authorityOnly)
  {
    hide RefersAt, OwnAt, IsRequirementElement;
    forall j, k | RefersAt(j, k, subs, authorityOnly) ensures (j, k) in at { RefersBefore(subs, j, k, authorityOnly); }
    forall m | 0 <= m < |at| ensures OwnAt(edges[m], at[m].0, at[m].1, owner, subs, authorityOnly) {
      OwnBefore(edges[m], subs, at[m].0, at[m].1, owner, authorityOnly);
    }
  }

  lemma OwnMore(at: seq<(nat, nat)>, edges: seq<Edge>, owner: Id, subs: seq<Node>, authorityOnly: bool, ks: seq<nat>, more: seq<Edge>)
    requires subs != [] && ListsOwn(at, edges, owner, subs[..|subs| - 1], authorityOnly)
    requires IsRequirementElement(subs[|subs| - 1], authorityOnly) && subs[|subs| - 1].Elem?
    requires ListsRefs(ks, more, subs[|subs| - 1], owner, subs[|subs| - 1].kids)
    ensures ListsOwn(at + Pairs(|subs| - 1, ks), edges + more, owner, subs, authorityOnly)
  {
    hide RefersAt, OwnAt, IsRequirementElement;
    var n, all, own := |subs| - 1, at + Pairs(|subs| - 1, ks), edges + more;
    forall m | 0 <= m < |all| ensures OwnAt(own[m], all[m].0, all[m].1, owner, subs, authorityOnly) {
      if m < |at| {
        OwnBefore(edges[m], subs, at[m].0, at[m].1, owner, authorityOnly);
      } else {
        OwnHere(more[m - |at|], ks[m - |at|], owner, subs, authorityOnly);
      }
    }
    forall j, k | RefersAt(j, k, subs, authorityOnly) ensures (j, k) in all {
      RefersBefore(subs, j, k, authorityOnly);
      if j == n {
        ReferenceHere(subs, k, authorityOnly);
        var i :| 0 <= i < |ks| && ks[i] == k;
        assert all[|at| + i] == (j, k);
      } else {
        assert (j, k) in at;
      }
    }
    forall m, l | 0 <= m < l < |all| ensures all[m].0 < all[l].0 || (all[m].0 == all[l].0 && all[m].1 < all[l].1) {
      if m < |at| { OwnBefore(edges[m], subs, at[m].0, at[m].1, owner, authorityOnly); }
    }
  }

  lemma OwnHere(e: Edge, k: nat, owner: Id, subs: seq<Node>, authorityOnly: bool)
    requires subs != [] && IsRequirementElement(subs[|subs| - 1], authorityOnly) && subs[|subs| - 1].Elem?
    requires k < |subs[|subs| - 1].kids| && e.target == owner && StandsFor(e, subs[|subs| - 1], subs[|subs| - 1].kids[k])
    ensures OwnAt(e, |subs| - 1, k, owner, subs, authorityOnly)
  {
    hide IsRequirementElement, RefersTo;
  }

  lemma ReferenceHere(subs: seq<Node>, k: int, authorityOnly: bool)
    requires subs != [] && RefersAt(|subs| - 1, k, subs, authorityOnly)
    ensures subs[|subs| - 1].Elem? && 0 <= k < |subs[|subs| - 1].kids| && RefersSomewhere(subs[|subs| - 1].kids[k])
  {
    hide RefersSomewhere;
  }

  /** Where in the document an edge stands: which shape, which requirement of it, which reference of that. */
  datatype Place = Place(shape: int, requirement: int, ref: int)

  ghost predicate Earlier(p: Place, q: Place) {
    || p.shape < q.shape
    || (p.shape == q.shape && (p.requirement < q.requirement || (p.requirement == q.requirement && p.ref < q.ref)))
  }

  ghost predicate IsPlaceIn(children: seq<Node>, p: Place) {
    && 0 <= p.shape < |children| && children[p.shape].Elem? && IsShape(children[p.shape])
    && RefersAt(p.requirement, p.ref, children[p.shape].kids, false)
  }

  /** The edge is the one written at this place, and leads to the shape it is written in. */
  ghost predicate EdgeAt(children: seq<Node>, p: Place, e: Edge) {
    && IsPlaceIn(children, p) && HasShapeId(children[p.shape], e.target)
    && StandsFor(e, children[p.shape].kids[p.requirement], children[p.shape].kids[p.requirement].kids[p.ref])
  }

  ghost predicate ListsEdges(at: seq<Place>, edges: seq<Edge>, children: seq<Node>) {
    && |at| == |edges| && (forall m, n :: 0 <= m < n < |at| ==> Earlier(at[m], at[n]))
    && (forall m :: 0 <= m < |at| ==> EdgeAt(children, at[m], edges[m]))
    && (forall p :: IsPlaceIn(children, p) ==> p in at)
  }

  function PlacesIn(shape: nat, own: seq<(nat, nat)>): seq<Place> {
    seq(|own|, i requires 0 <= i < |own| => Place(shape, own[i].0, own[i].1))
  }

  /**
   The first pass collects, in document order, exactly one edge for every local reference in
   a requirement of a shape.
   */
  lemma {:induction false} EdgesListed(children: seq<Node>) returns (at: seq<Place>)
    ensures ListsEdges(at, FirstPass(children).edges, children)
  {
    hide OwnEdges, IsPlaceIn, EdgeAt, ListsEdges, ListsOwn, HasShapeId, NameOf, ShapeKindOf;
    if children == [] {
      at := [];
      NoEdges();
    } else {
      var rest, shape := children[..|children| - 1], children[|children| - 1];
      at := EdgesListed(rest);
      var edges := FirstPass(rest).edges;
      ShapeHasId(shape);
      if ShapeId(shape).Some? {
        var id := ShapeId(shape).value;
        ShapeIdMeans(shape, id);
        ShapeIsElement(shape);
        var own := OwnListed(id, shape.kids, false);
        EdgesMore(at, edges, children, id, own, OwnEdges(id, shape.kids, false));
        at := at + PlacesIn(|rest|, own);
      } else {
        EdgesSame(at, edges, children);
      }
    }
  }

  lemma ShapeHasId(shape: Node)
    ensures ShapeId(shape).Some? <==> IsShape(shape)
  {
    hide ShapeId, HasShapeId;
    if ShapeId(shape).Some? { ShapeIdMeans(shape, ShapeId(shape).value); }
    if id :| HasShapeId(shape, id) { ShapeIdMeans(shape, id); }
  }

  lemma NoEdges()
    ensures ListsEdges([], FirstPass([]).edges, [])
  {
    hide EdgeAt;
  }

  lemma PlaceBefore(children: seq<Node>, p: Place)
    requires children != []
    ensures p.shape < |children| - 1 ==> (IsPlaceIn(children, p) <==> IsPlaceIn(children[..|children| - 1], p))
    ensures IsPlaceIn(children, p) ==> 0 <= p.shape < |children| && IsShape(children[p.shape])
  {
    hide HasShapeId, RefersAt;
  }

  lemma EdgeBefore(children: seq<Node>, p: Place, e: Edge)
    requires children != [] && EdgeAt(children[..|children| - 1], p, e)
    ensures EdgeAt(children, p, e) && p.shape < |children| - 1
  {
    hide HasShapeId, RefersAt, StandsFor;
    assert IsPlaceIn(children[..|children| - 1], p);
    PlaceBefore(children, p);
    PlaceHolds(children[..|children| - 1], p);
    PlaceHolds(children, p);
  }

  lemma PlaceHolds(children: seq<Node>, p: Place)
    requires IsPlaceIn(children, p)
    ensures 0 <= p.shape < |children| && children[p.shape].Elem? && RefersAt(p.requirement, p.ref, children[p.shape].kids, false)
  {
    hide HasShapeId, RefersAt;
  }

  lemma EdgesSame(at: seq<Place>, edges: seq<Edge>, children: seq<Node>)
    requires children != [] && ListsEdges(at, edges, children[..|children| - 1])
    requires !IsShape(children[|children| - 1])
    ensures ListsEdges(at, edges, children)
  {
    hide IsPlaceIn, EdgeAt, HasShapeId;
    forall m | 0 <= m < |at| ensures EdgeAt(children, at[m], edges[m]) { EdgeBefore(children, at[m], edges[m]); }
    forall p | IsPlaceIn(children, p) ensures p in at { PlaceBefore(children, p); }
  }

  lemma EdgesMore(at: seq<Place>, edges: seq<Edge>, children: seq<Node>, id: Id, own: seq<(nat, nat)>, more: seq<Edge>)
    requires children != [] && ListsEdges(at, edges, children[..|children| - 1])
    requires HasShapeId(children[|children| - 1], id) && children[|children| - 1].Elem? && ListsOwn(own, more, id, children[|children| - 1].kids, false)
    ensures ListsEdges(at + PlacesIn(|children| - 1, own), edges + more, children)
  {
    hide IsPlaceIn, EdgeAt, HasShapeId, OwnAt, RefersAt;
    var n, all, both := |children| - 1, at + PlacesIn(|children| - 1, own), edges + more;
    forall m | 0 <= m < |all| ensures EdgeAt(children, all[m], both[m]) {
      if m < |at| {
        EdgeBefore(children, at[m], edges[m]);
      } else {
        EdgeHere(children, id, more[m - |at|], own[m - |at|]);
      }
    }
    forall p | IsPlaceIn(children, p) ensures p in all {
      PlaceBefore(children, p);
      if p.shape == n {
        PlaceHolds(children, p);
        var i :| 0 <= i < |own| && own[i] == (p.requirement, p.ref);
        assert all[|at| + i] == p;
      } else {
        assert p in at;
      }
    }
    forall m, l | 0 <= m < l < |all| ensures Earlier(all[m], all[l]) {
      if m < |at| { EdgeBefore(children, at[m], edges[m]); }
    }
  }

  lemma EdgeHere(children: seq<Node>, id: Id, e: Edge, p: (nat, nat))
    requires children != [] && HasShapeId(children[|children| - 1], id) && children[|children| - 1].Elem?
    requires OwnAt(e, p.0, p.1, id, children[|children| - 1].kids, false)
    ensures EdgeAt(children, Place(|children| - 1, p.0, p.1), e)
  {
    hide HasShapeId, StandsFor, RefersAt;
    OwnAtHolds(e, p.0, p.1, id, children[|children| - 1].kids);
  }

  lemma OwnAtHolds(e: Edge, j: int, k: int, owner: Id, subs: seq<Node>)
    requires OwnAt(e, j, k, owner, subs, false)
    ensures RefersAt(j, k, subs, false) && e.target == owner && 0 <= j < |subs| && subs[j].Elem? && 0 <= k < |subs[j].kids|
    ensures StandsFor(e, subs[j], subs[j].kids[k])
  {
  }

  /** An edge is collected, after either pass, exactly when it is written somewhere in the document. */
  lemma EdgesWritten(children: seq<Node>, e: Edge)
    ensures e in FirstPass(children).edges <==> exists p :: EdgeAt(children, p, e)
    ensures e in SecondPass(FirstPass(children), children).edges <==> exists p :: EdgeAt(children, p, e)
  {
    hide FirstPass, SecondPass, EdgeAt, IsPlaceIn, EdgeOf;
    EdgesRead(children, e);
    FirstPassEdges(children, e);
    var at := EdgesListed(children);
    var edges := FirstPass(children).edges;
    if e in edges {
      var m :| 0 <= m < |edges| && edges[m] == e;
      assert EdgeAt(children, at[m], e);
    }
    if p :| EdgeAt(children, p, e) {
      EdgeAtPlace(children, p, e);
      var m :| 0 <= m < |at| && at[m] == p;
      SamePlaceSameEdge(children, p, e, edges[m]);
    }
  }

  lemma EdgeAtPlace(children: seq<Node>, p: Place, e: Edge)
    requires EdgeAt(children, p, e)
    ensures IsPlaceIn(children, p)
  {
    hide IsPlaceIn, HasShapeId, StandsFor;
  }

  lemma SamePlaceSameEdge(children: seq<Node>, p: Place, e: Edge, f: Edge)
    requires EdgeAt(children, p, e) && EdgeAt(children, p, f)
    ensures e == f
  {
    hide RefersAt;
    PlaceHolds(children, p);
    assert ("#" + e.source.name)[1..] == e.source.name && ("#" + f.source.name)[1..] == f.source.name;
  }

  // ----- elements

  /** The last shape with the id: what it says of the element counts. */
  ghost predicate IsLastShape(children: seq<Node>, i: nat, id: Id) {
    i < |children| && HasShapeId(children[i], id) && forall j :: i < j < |children| ==> !HasShapeId(children[j], id)
  }

  /** The element says what its shape does. */
  ghost predicate SaysElement(element: Element, shape: Node, id: Id) {
    && shape.Elem? && IsShapeOf(shape.tag, element.kind)
    && element.name == if GetAttr(shape, AttrName).Some? then GetAttr(shape, AttrName).value else id.name
  }

  ghost predicate RequiresAt(shape: Node, j: int, k: int, d: Id, authorityOnly: bool) {
    && shape.Elem? && 0 <= j < |shape.kids| && IsRequirementElement(shape.kids[j], authorityOnly)
    && 0 <= k < |shape.kids[j].kids| && RefersTo(shape.kids[j].kids[k], d)
  }

  /** Some requirement of the shape refers to `d`. */
  ghost predicate RequiresOf(shape: Node, d: Id, authorityOnly: bool) {
    exists j, k :: RequiresAt(shape, j, k, d, authorityOnly)
  }

  /** Some knowledge source with the id has `d` as its authority. */
  ghost predicate HasAuthority(children: seq<Node>, id: Id, d: Id) {
    exists l :: 0 <= l < |children| && HasTag(children[l], TagKnowledgeSource) && HasShapeId(children[l], id) && RequiresOf(children[l], d, true)
  }

  lemma RequiresMeans(shape: Node, id: Id, d: Id, authorityOnly: bool)
    requires shape.Elem?
    ensures Requires(shape, id, d, authorityOnly) <==> RequiresOf(shape, d, authorityOnly)
  {
    hide OwnEdges, RefersAt, RequiresAt, OwnAt;
    var own := OwnEdges(id, shape.kids, authorityOnly);
    var at := OwnListed(id, shape.kids, authorityOnly);
    if d in Sources(own) {
      var m :| 0 <= m < |own| && Sources(own)[m] == d;
      OwnRequires(shape, own[m], at[m].0, at[m].1, id, authorityOnly);
    }
    if j, k :| RequiresAt(shape, j, k, d, authorityOnly) {
      RequiredRefers(shape, j, k, d, authorityOnly);
      var m :| 0 <= m < |at| && at[m] == (j, k);
      OwnRequires(shape, own[m], j, k, id, authorityOnly);
      OneRequired(shape, j, k, d, own[m].source, authorityOnly);
      assert Sources(own)[m] == d;
    }
  }

  lemma OwnRequires(shape: Node, e: Edge, j: int, k: int, id: Id, authorityOnly: bool)
    requires shape.Elem? && OwnAt(e, j, k, id, shape.kids, authorityOnly)
    ensures RequiresAt(shape, j, k, e.source, authorityOnly)
  {
  }

  lemma RequiredRefers(shape: Node, j: int, k: int, d: Id, authorityOnly: bool)
    requires RequiresAt(shape, j, k, d, authorityOnly)
    ensures shape.Elem? && RefersAt(j, k, shape.kids, authorityOnly)
  {
    hide RefersTo;
  }

  lemma OneRequired(shape: Node, j: int, k: int, a: Id, b: Id, authorityOnly: bool)
    requires RequiresAt(shape, j, k, a, authorityOnly) && RequiresAt(shape, j, k, b, authorityOnly)
    ensures a == b
  {
    hide RefersTo;
    OneReference(shape.kids[j].kids[k], a, b);
  }

  lemma OneReference(ref: Node, a: Id, b: Id)
    requires RefersTo(ref, a) && RefersTo(ref, b)
    ensures a == b
  {
    assert ("#" + a.name)[1..] == a.name && ("#" + b.name)[1..] == b.name;
  }

  lemma {:induction false} LastShapeMeans(children: seq<Node>, i: nat, id: Id)
    requires IsLastShape(children, i, id)
    ensures LastShape(children, id) == Some(children[i])
    decreases |children|
  {
    hide ShapeId, HasShapeId;
    var n := |children| - 1;
    ShapeIdMeans(children[n], id);
    if i == n {
    } else {
      assert IsLastShape(children[..n], i, id);
      LastShapeMeans(children[..n], i, id);
    }
  }

  lemma {:induction false} LastShapeExists(children: seq<Node>, id: Id)
    ensures LastShape(children, id).Some? <==> exists i :: 0 <= i < |children| && HasShapeId(children[i], id)
  {
    hide ShapeId, HasShapeId;
    if children == [] {
    } else {
      var n := |children| - 1;
      ShapeIdMeans(children[n], id);
      LastShapeExists(children[..n], id);
      if i :| 0 <= i < |children| && HasShapeId(children[i], id) {
        if i < n { assert HasShapeId(children[..n][i], id); }
      }
      if LastShape(children[..n], id).Some? {
        var i :| 0 <= i < n && HasShapeId(children[..n][i], id);
        assert HasShapeId(children[i], id);
      }
    }
  }

  /** The second pass changes nothing but dependencies. */
  lemma {:induction false} OnlyDependenciesChange(drd: Drd, children: seq<Node>, id: Id)
    requires id in drd.elements.at
    ensures id in SecondPass(drd, children).elements.at
    ensures SecondPass(drd, children).elements.at[id].kind == drd.elements.at[id].kind
    ensures SecondPass(drd, children).elements.at[id].name == drd.elements.at[id].name
  {
    hide OwnEdges, Sources;
    if children == [] {
    } else {
      OnlyDependenciesChange(drd, children[..|children| - 1], id);
    }
  }

  lemma {:induction false} KindAndName(children: seq<Node>, id: Id)
    requires LastShape(children, id).Some?
    ensures id in FirstPass(children).elements.at && LastShape(children, id).value.Elem?
    ensures ShapeKindOf(LastShape(children, id).value.tag) == Some(FirstPass(children).elements.at[id].kind)
    ensures FirstPass(children).elements.at[id].name == NameOf(LastShape(children, id).value, id)
  {
    hide OwnEdges, Sources, NameOf, ShapeKindOf;
    var n := |children| - 1;
    if ShapeId(children[n]) == Some(id) {
    } else {
      KindAndName(children[..n], id);
    }
  }

  /**
   After both passes there is an element for every id a shape has. Its kind and name are those
   of the last shape with that id, and so are its dependencies, with the authorities of all
   knowledge sources with that id.
   */
  lemma ElementsWritten(children: seq<Node>, id: Id)
    ensures var drd := SecondPass(FirstPass(children), children);
      && (id in drd.elements.at <==> exists i :: 0 <= i < |children| && HasShapeId(children[i], id))
      && forall i: nat :: IsLastShape(children, i, id) ==>
           id in drd.elements.at && SaysElement(drd.elements.at[id], children[i], id) &&
           forall d :: d in drd.elements.at[id].dependencies <==> RequiresOf(children[i], d, false) || HasAuthority(children, id, d)
  {
    hide FirstPass, SecondPass, LastShape, Requires, RequiresOf, HasShapeId, Authorised, HasAuthority, SaysElement;
    var drd := SecondPass(FirstPass(children), children);
    ElementsRead(children, id);
    LastShapeExists(children, id);
    forall i: nat | IsLastShape(children, i, id)
      ensures id in drd.elements.at && SaysElement(drd.elements.at[id], children[i], id)
      ensures forall d :: d in drd.elements.at[id].dependencies <==> RequiresOf(children[i], d, false) || HasAuthority(children, id, d)
    {
      LastShapeMeans(children, i, id);
      KindAndName(children, id);
      OnlyDependenciesChange(FirstPass(children), children, id);
      ElementSays(drd.elements.at[id], children[i], id);
      forall d ensures d in drd.elements.at[id].dependencies <==> RequiresOf(children[i], d, false) || HasAuthority(children, id, d) {
        KeptMeans(children, id, d);
        RequiresMeans(children[i], id, d, false);
        AuthorityMeans(children, id, d);
      }
    }
  }

  lemma ElementSays(element: Element, shape: Node, id: Id)
    requires shape.Elem? && ShapeKindOf(shape.tag) == Some(element.kind) && element.name == NameOf(shape, id)
    ensures SaysElement(element, shape, id)
  {
    KindMeans(shape.tag, element.kind);
  }

  lemma AuthorityMeans(children: seq<Node>, id: Id, d: Id)
    ensures Authorised(children, id, d) <==> HasAuthority(children, id, d)
  {
    hide Requires, RequiresOf, HasShapeId, HasTag, IsKnowledgeSource;
    forall l | 0 <= l < |children|
      ensures IsKnowledgeSource(children[l], id) && Requires(children[l], id, d, true) <==>
              HasTag(children[l], TagKnowledgeSource) && HasShapeId(children[l], id) && RequiresOf(children[l], d, true)
    {
      KnowledgeSourceMeans(children[l], id);
      if children[l].Elem? { RequiresMeans(children[l], id, d, true); }
    }
  }

  lemma KnowledgeSourceMeans(node: Node, id: Id)
    ensures IsKnowledgeSource(node, id) <==> HasTag(node, TagKnowledgeSource) && HasShapeId(node, id)
    ensures IsKnowledgeSource(node, id) ==> node.Elem?
  {
    if HasTag(node, TagKnowledgeSource) { assert IsShapeOf(node.tag, KnowledgeSource); }
  }
}
