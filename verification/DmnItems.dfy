/**
 Item definitions (`parseItemDefinition` in packages/js/sdk/src/dmn/parser.ts): types
 that nest through their components. Printed and parsed again they come back the same.
 */
module DmnItems {
  import opened Collections
  import opened Xml
  import opened DmnWords

  datatype ItemDefinition = ItemDefinition(id: string, name: string, typeRef: Option<string>, allowedValues: Option<string>,
                                           itemComponents: seq<ItemDefinition>, isCollection: bool)

  function ParseIsCollection(raw: Option<string>): bool {
    if raw.None? || raw.value == "" then false
    else
      var word := Lower(Trim(raw.value));
      word == "true" || word == "1"
  }

  /** The text of the last child with the tag, if it is not empty: an empty one takes the value away again. */
  function LastText(kids: seq<Node>, tag: Tag): Option<string> {
    if kids == [] then None
    else
      var n := |kids| - 1;
      if HasTag(kids[n], tag) then NonEmpty(TextContent(kids[n])) else LastText(kids[..n], tag)
  }

  /** What an element says as an item definition, be it the top one or a component. */
  function ItemOf(node: Node): ItemDefinition
    decreases node, 1
  {
    ItemDefinition(AttrOrEmpty(node, AttrId), AttrOrEmpty(node, AttrName), LastText(Children(node), TagTypeRef), LastText(Children(node), TagAllowedValues),
                   if node.Elem? then Components(node.kids) else [], ParseIsCollection(GetAttr(node, AttrIsCollection)))
  }

  function Components(kids: seq<Node>): seq<ItemDefinition>
    decreases kids, 0
  {
    if kids == [] then []
    else
      var n := |kids| - 1;
      Components(kids[..n]) + if HasTag(kids[n], TagItemComponent) then [ItemOf(kids[n])] else []
  }

  lemma LastTextLast(kids: seq<Node>, kid: Node, tag: Tag)
    ensures LastText(kids + [kid], tag) == if HasTag(kid, tag) then NonEmpty(TextContent(kid)) else LastText(kids, tag)
    ensures LastText([], tag) == None
  {
    hide TextContent;
    assert (kids + [kid])[..|kids + [kid]| - 1] == kids;
  }

  lemma ComponentsLast(kids: seq<Node>, kid: Node)
    ensures Components(kids + [kid]) == Components(kids) + if HasTag(kid, TagItemComponent) then [ItemOf(kid)] else []
    ensures Components([]) == []
  {
    hide ItemOf;
    assert (kids + [kid])[..|kids + [kid]| - 1] == kids;
  }

  method ParseItemDefinition(node: Node) returns (item: ItemDefinition)
    requires node.Elem?
    ensures item == ItemOf(node)
    decreases node
  {
    hide TextContent, LastText, Components, GetAttr, AttrOrEmpty, ParseIsCollection;
    var kids := node.kids;
    var typeRef: Option<string>, allowedValues: Option<string>, itemComponents: seq<ItemDefinition> := None, None, [];
    LastTextLast([], node, TagTypeRef);
    LastTextLast([], node, TagAllowedValues);
    ComponentsLast([], node);
    for i := 0 to |kids|
      invariant typeRef == LastText(kids[..i], TagTypeRef) && allowedValues == LastText(kids[..i], TagAllowedValues)
      invariant itemComponents == Components(kids[..i])
    {
      var kid := kids[i];
      assert kids[..i + 1] == kids[..i] + [kid];
      LastTextLast(kids[..i], kid, TagTypeRef);
      LastTextLast(kids[..i], kid, TagAllowedValues);
      ComponentsLast(kids[..i], kid);
      if HasTag(kid, TagTypeRef) {
        typeRef := NonEmpty(TextContent(kid));
      } else if HasTag(kid, TagAllowedValues) {
        allowedValues := NonEmpty(TextContent(kid));
      } else if HasTag(kid, TagItemComponent) {
        var component := ParseItemDefinition(kid);
        itemComponents := itemComponents + [component];
      }
    }
    assert kids[..|kids|] == kids;
    item := ItemDefinition(AttrOrEmpty(node, AttrId), AttrOrEmpty(node, AttrName), typeRef, allowedValues, itemComponents,
                           ParseIsCollection(GetAttr(node, AttrIsCollection)));
  }

  // ----- the inverse

  function PrintText(s: Option<string>, tag: Tag): seq<Node> {
    match s case None => [] case Some(s) => [Elem(tag, map[], [Text(s)])]
  }

  function Print(item: ItemDefinition, tag: Tag): Node
    decreases item, 1
  {
    Elem(tag, map[AttrId := item.id, AttrName := item.name, AttrIsCollection := if item.isCollection then "true" else "false"],
         PrintText(item.typeRef, TagTypeRef) + PrintText(item.allowedValues, TagAllowedValues) + PrintComponents(item.itemComponents))
  }

  function PrintComponents(items: seq<ItemDefinition>): seq<Node>
    decreases items, 0
  {
    if items == [] then [] else PrintComponents(items[..|items| - 1]) + [Print(items[|items| - 1], TagItemComponent)]
  }

  ghost predicate Normal(item: ItemDefinition)
    decreases item, 1
  {
    NormalText(item.typeRef) && NormalText(item.allowedValues) && AllNormal(item.itemComponents)
  }

  ghost predicate AllNormal(items: seq<ItemDefinition>)
    decreases items, 0
  {
    forall i :: 0 <= i < |items| ==> Normal(items[i])
  }

  lemma IsCollectionReadsBack(b: bool)
    ensures ParseIsCollection(Some(if b then "true" else "false")) == b
  {
    hide Trim, IsSpace;
    LettersAreNoSpace();
    TrimTrims("true");
    TrimTrims("false");
    assert Lower("true") == "true";
    assert Lower("false")[0] == 'f';
  }

  /** Where nothing after it carries the tag, the text printed under it is the last one. */
  lemma {:induction false} LastTextThen(a: seq<Node>, b: seq<Node>, tag: Tag)
    requires forall i :: 0 <= i < |b| ==> !HasTag(b[i], tag)
    ensures LastText(a + b, tag) == LastText(a, tag)
  {
    hide LastText, HasTag;
    if b == [] {
      assert a + b == a;
    } else {
      var rest, last := b[..|b| - 1], b[|b| - 1];
      assert a + b == (a + rest) + [last];
      LastTextThen(a, rest, tag);
      LastTextLast(a + rest, last, tag);
    }
  }

  lemma PrintedTextReadsBack(s: Option<string>, tag: Tag)
    requires NormalText(s)
    ensures LastText(PrintText(s, tag), tag) == s
  {
    hide Trim;
    if s.Some? {
      TrimTrims(s.value);
      var kid := Elem(tag, map[], [Text(s.value)]);
      assert [] + [kid] == [kid];
      LastTextLast([], kid, tag);
    }
  }

  lemma {:induction false} ComponentsPrinted(items: seq<ItemDefinition>)
    ensures forall i :: 0 <= i < |PrintComponents(items)| ==> HasTag(PrintComponents(items)[i], TagItemComponent)
  {
    if items == [] {
    } else {
      ComponentsPrinted(items[..|items| - 1]);
    }
  }

  lemma {:induction false} NoComponents(a: seq<Node>, b: seq<Node>)
    requires forall i :: 0 <= i < |a| ==> !HasTag(a[i], TagItemComponent)
    ensures Components(a + b) == Components(b)
  {
    hide Components, ItemOf, HasTag;
    ComponentsLast([], Text(""));
    if b != [] {
      var rest, last := b[..|b| - 1], b[|b| - 1];
      assert b == rest + [last] && a + b == (a + rest) + [last];
      NoComponents(a, rest);
      ComponentsLast(rest, last);
      ComponentsLast(a + rest, last);
    } else if a != [] {
      var rest, last := a[..|a| - 1], a[|a| - 1];
      assert a == rest + [last] && a + b == a && rest + b == rest;
      NoComponents(rest, b);
      ComponentsLast(rest, last);
    } else {
      assert a + b == b;
    }
  }

  lemma {:induction false} RoundTrip(item: ItemDefinition, tag: Tag)
    requires Normal(item)
    ensures ItemOf(Print(item, tag)) == item
    decreases item, 1
  {
    hide ItemOf, Print, Components, PrintComponents, AllNormal, NormalText;
    ComponentsTrip(item.itemComponents);
    TripFrom(item, tag);
  }

  lemma TripFrom(item: ItemDefinition, tag: Tag)
    requires NormalText(item.typeRef) && NormalText(item.allowedValues) && Components(PrintComponents(item.itemComponents)) == item.itemComponents
    ensures ItemOf(Print(item, tag)) == item
  {
    hide LastText, Components, PrintText, PrintComponents, ParseIsCollection, NormalText;
    PartsReadBack(item.typeRef, item.allowedValues, item.itemComponents);
    IsCollectionReadsBack(item.isCollection);
  }

  lemma PartsReadBack(typeRef: Option<string>, allowed: Option<string>, items: seq<ItemDefinition>)
    requires NormalText(typeRef) && NormalText(allowed)
    ensures var kids := PrintText(typeRef, TagTypeRef) + PrintText(allowed, TagAllowedValues) + PrintComponents(items);
      && LastText(kids, TagTypeRef) == typeRef && LastText(kids, TagAllowedValues) == allowed && Components(kids) == Components(PrintComponents(items))
  {
    hide LastText, Components, PrintText, PrintComponents, NormalText;
    var a, b, c := PrintText(typeRef, TagTypeRef), PrintText(allowed, TagAllowedValues), PrintComponents(items);
    TextPrinted(typeRef, TagTypeRef);
    TextPrinted(allowed, TagAllowedValues);
    ComponentsPrinted(items);
    PrintedTextReadsBack(typeRef, TagTypeRef);
    PrintedTextReadsBack(allowed, TagAllowedValues);
    LastTextThen(a, b, TagTypeRef);
    LastTextThen(a + b, c, TagTypeRef);
    LastTextAfter(a, allowed, TagAllowedValues);
    LastTextThen(a + b, c, TagAllowedValues);
    NoComponents(a + b, c);
  }

  lemma TextPrinted(s: Option<string>, tag: Tag)
    ensures forall i :: 0 <= i < |PrintText(s, tag)| ==> HasTag(PrintText(s, tag)[i], tag)
  {
  }

  lemma LastTextAfter(a: seq<Node>, s: Option<string>, tag: Tag)
    requires NormalText(s) && forall i :: 0 <= i < |a| ==> !HasTag(a[i], tag)
    ensures LastText(a + PrintText(s, tag), tag) == s
  {
    hide LastText, TextContent;
    if s == None {
      assert a + [] == [] + a;
      LastTextThen([], a, tag);
      LastTextLast([], Text(""), tag);
    } else {
      PrintedTextReadsBack(s, tag);
      var kid := Elem(tag, map[], [Text(s.value)]);
      LastTextLast(a, kid, tag);
      LastTextLast([], kid, tag);
      assert [] + [kid] == [kid];
    }
  }

  lemma {:induction false} ComponentsTrip(items: seq<ItemDefinition>)
    requires AllNormal(items)
    ensures Components(PrintComponents(items)) == items
    decreases items, 0
  {
    hide Components, ItemOf, Print, Normal;
    ComponentsLast([], Text(""));
    if items == [] {
    } else {
      var rest, last := items[..|items| - 1], items[|items| - 1];
      ComponentsTrip(rest);
      assert Normal(last);
      RoundTrip(last, TagItemComponent);
      PrintedTag(last);
      ComponentsLast(PrintComponents(rest), Print(last, TagItemComponent));
    }
  }

  lemma PrintedTag(item: ItemDefinition)
    ensures HasTag(Print(item, TagItemComponent), TagItemComponent)
  {
  }

  lemma {:induction false} LastTextNormal(kids: seq<Node>, tag: Tag)
    ensures NormalText(LastText(kids, tag))
  {
    hide TextContent;
    if kids == [] {
    } else {
      LastTextNormal(kids[..|kids| - 1], tag);
      TextContentTrimmed(kids[|kids| - 1]);
    }
  }

  lemma {:induction false} ItemNormal(node: Node)
    ensures Normal(ItemOf(node))
    decreases node, 1
  {
    hide LastText, Components, AllNormal, NormalText;
    LastTextNormal(Children(node), TagTypeRef);
    LastTextNormal(Children(node), TagAllowedValues);
    if node.Elem? { ComponentsNormal(node.kids); } else { NothingNormal(); }
  }

  lemma NothingNormal()
    ensures AllNormal([])
  {
  }

  lemma {:induction false} ComponentsNormal(kids: seq<Node>)
    ensures AllNormal(Components(kids))
    decreases kids, 0
  {
    hide ItemOf, Normal;
    if kids == [] {
    } else {
      ComponentsNormal(kids[..|kids| - 1]);
      if HasTag(kids[|kids| - 1], TagItemComponent) { ItemNormal(kids[|kids| - 1]); }
    }
  }

  /** Parsing, printing and parsing again is parsing, at any depth of components. */
  lemma ParsePrintParse(node: Node, tag: Tag)
    ensures ItemOf(Print(ItemOf(node), tag)) == ItemOf(node)
  {
    hide ItemOf, Print, Normal;
    ItemNormal(node);
    RoundTrip(ItemOf(node), tag);
  }

  // ----- collections

  /** The word in any mixture of small and capital letters. */
  ghost predicate IsCased(s: string, capitals: string) {
    |s| == |capitals| && forall i :: 0 <= i < |s| ==> s[i] == capitals[i] || s[i] as int == capitals[i] as int + 32
  }

  /** An item is a collection when its attribute, white space around it aside, is `1` or `true` in whatever case. */
  lemma CollectionIff(raw: Option<string>)
    ensures ParseIsCollection(raw) <==> raw.Some? && (Trim(raw.value) == "1" || IsCased(Trim(raw.value), "TRUE"))
  {
    if raw.Some? {
      hide Trim;
      if raw.value == "" { TrimTrims(""); }
      var s := Trim(raw.value);
      LowerOne(s);
      LowerTrue(s);
    }
  }

  lemma LowerOne(s: string)
    ensures Lower(s) == "1" <==> s == "1"
  {
    if |s| == 1 { assert Lower(s)[0] == LowerChar(s[0]) && s == [s[0]]; }
  }

  lemma LowerTrue(s: string)
    ensures Lower(s) == "true" <==> IsCased(s, "TRUE")
  {
    var small, capitals := "true", "TRUE";
    if |s| == 4 {
      forall i | 0 <= i < 4 ensures Lower(s)[i] == small[i] <==> s[i] == capitals[i] || s[i] as int == capitals[i] as int + 32 {
        LetterCased(s[i], capitals[i], small[i]);
      }
    }
  }

  lemma LetterCased(c: char, capital: char, small: char)
    requires 'A' <= capital <= 'Z' && capital != 'K' && small as int == capital as int + 32
    ensures LowerChar(c) == small <==> c == capital || c as int == capital as int + 32
  {
  }
}
