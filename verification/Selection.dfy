/**
 Selection trees and how they are written out (`renderSelectionField` and
 `buildSelectionSet` in packages/js/client/src/graphql/query-builder.ts), line by line.
 */
module Selection {
  import opened Collections
  import opened KeyCase

  /** A selection field; a missing list and an empty one are treated alike. */
  datatype Field =
    | Scalar(name: string)
    | Nested(name: string, fields: seq<Field>, on: seq<Fragment>)

  /** An inline fragment; the fragments of a field come in the order `Object.entries` lists them. */
  datatype Fragment = Fragment(typeName: string, fields: seq<Field>)

  /** A related resource to load alongside; `args` is the text of its filter and sort, empty when it has neither. */
  datatype Include = Include(relation: string, args: string, fields: seq<string>)

  function ArgSuffix(args: string): string {
    if args == "" then "" else "(" + args + ")"
  }

  function Spaces(n: nat): string {
    seq(n, i => ' ')
  }

  // ----- what is written

  function Rendered(field: Field, prefix: string): seq<string>
    decreases field, 1
  {
    match field
    case Scalar(name) => [prefix + ToSnake(name)]
    case Nested(name, fields, on) => [prefix + ToSnake(name) + " {"] + Body(field, prefix) + [prefix + "}"]
  }

  function Body(field: Field, prefix: string): seq<string>
    requires field.Nested?
    decreases field, 0
  {
    var body := RenderedAll(field.fields, prefix + "  ") + RenderedOn(field.on, prefix + "  ");
    if body == [] then [prefix + "  " + "__typename"] else body
  }

  function RenderedAll(fields: seq<Field>, prefix: string): seq<string>
    decreases fields, 0
  {
    if fields == [] then []
    else RenderedAll(fields[..|fields| - 1], prefix) + Rendered(fields[|fields| - 1], prefix)
  }

  /** The fragments that select something; the others are not written at all. */
  function RenderedOn(on: seq<Fragment>, prefix: string): seq<string>
    decreases on, 0
  {
    if on == [] then []
    else RenderedOn(on[..|on| - 1], prefix) + RenderedFragment(on[|on| - 1], prefix)
  }

  function RenderedFragment(fragment: Fragment, prefix: string): seq<string>
    decreases fragment, 0
  {
    var body := RenderedAll(fragment.fields, prefix + "  ");
    if body == [] then [] else [prefix + "... on " + fragment.typeName + " {"] + body + [prefix + "}"]
  }

  /** The fields of an include stand four spaces in from it, not two. */
  function RenderedInclude(relation: Include, prefix: string): seq<string> {
    var names := if relation.fields == [] then [prefix + "    " + "__typename"] else IncludeNames(relation.fields, prefix + "    ");
    [prefix + ToSnake(relation.relation) + ArgSuffix(relation.args) + " {"] + names + [prefix + "}"]
  }

  function IncludeNames(names: seq<string>, prefix: string): seq<string> {
    seq(|names|, i requires 0 <= i < |names| => prefix + ToSnake(names[i]))
  }

  function RenderedIncludes(includes: seq<Include>, prefix: string): seq<string> {
    if includes == [] then []
    else RenderedIncludes(includes[..|includes| - 1], prefix) + RenderedInclude(includes[|includes| - 1], prefix)
  }

  function SelectionLines(fields: seq<Field>, includes: seq<Include>, indent: nat): seq<string> {
    RenderedAll(fields, Spaces(indent)) + RenderedIncludes(includes, Spaces(indent))
  }

  lemma RenderedAllLast(fields: seq<Field>, field: Field, prefix: string)
    ensures RenderedAll(fields + [field], prefix) == RenderedAll(fields, prefix) + Rendered(field, prefix)
    ensures RenderedAll([], prefix) == []
  {
    hide Rendered;
    assert (fields + [field])[..|fields + [field]| - 1] == fields;
  }

  lemma RenderedOnLast(on: seq<Fragment>, fragment: Fragment, prefix: string)
    ensures RenderedOn(on + [fragment], prefix) == RenderedOn(on, prefix) + RenderedFragment(fragment, prefix)
    ensures RenderedOn([], prefix) == []
  {
    hide RenderedFragment;
    assert (on + [fragment])[..|on + [fragment]| - 1] == on;
  }

  lemma RenderedSome(field: Field, prefix: string)
    ensures Rendered(field, prefix) != []
  {
    hide Body;
  }

  lemma {:induction false} NothingIffNothing(fields: seq<Field>, prefix: string)
    ensures RenderedAll(fields, prefix) == [] <==> fields == []
  {
    hide Rendered;
    if fields == [] {
    } else {
      RenderedSome(fields[|fields| - 1], prefix);
    }
  }

  /** Arguments stand in parentheses between the name and the brace, and change nothing else. */
  lemma ArgumentsInserted(relation: Include, prefix: string) returns (start: string)
    requires relation.args != ""
    ensures var given, bare := RenderedInclude(relation, prefix), RenderedInclude(relation.(args := ""), prefix);
      && given[1..] == bare[1..]
      && bare[0] == start + " {" && given[0] == start + "(" + relation.args + ") {"
  {
    hide ToSnake, IncludeNames;
    start := prefix + ToSnake(relation.relation);
    assert start + "" + " {" == start + " {";
    assert start + ("(" + relation.args + ")") + " {" == start + "(" + relation.args + ") {";
  }

  // ----- how it is written

  method RenderSelectionField(field: Field, prefix: string) returns (lines: seq<string>)
    ensures lines == Rendered(field, prefix)
    decreases field, 1
  {
    hide ToSnake;
    if field.Scalar? {
      return [prefix + ToSnake(field.name)];
    }
    var name := ToSnake(field.name);
    var body := RenderBody(field, prefix);
    lines := [prefix + name + " {"] + body + [prefix + "}"];
  }

  method RenderBody(field: Field, prefix: string) returns (body: seq<string>)
    requires field.Nested?
    ensures body == Body(field, prefix)
    decreases field, 0
  {
    hide Rendered, RenderedFragment, RenderedAll, RenderedOn;
    var fields, on := field.fields, field.on;
    body := [];
    RenderedAllLast([], field, prefix + "  ");
    for i := 0 to |fields|
      invariant body == RenderedAll(fields[..i], prefix + "  ")
    {
      assert fields[..i + 1] == fields[..i] + [fields[i]];
      RenderedAllLast(fields[..i], fields[i], prefix + "  ");
      var child := RenderSelectionField(fields[i], prefix + "  ");
      body := body + child;
    }
    assert fields[..|fields|] == fields;
    ghost var before := body;
    RenderedOnLast([], Fragment("", []), prefix + "  ");
    for i := 0 to |on|
      invariant body == before + RenderedOn(on[..i], prefix + "  ")
    {
      assert on[..i + 1] == on[..i] + [on[i]];
      RenderedOnLast(on[..i], on[i], prefix + "  ");
      var fragment := RenderFragment(on[i], prefix + "  ");
      CatAssociates(before, RenderedOn(on[..i], prefix + "  "), fragment);
      body := body + fragment;
    }
    assert on[..|on|] == on;
    if body == [] {
      body := [prefix + "  " + "__typename"];
    }
  }

  method RenderFragment(fragment: Fragment, prefix: string) returns (lines: seq<string>)
    ensures lines == RenderedFragment(fragment, prefix)
    decreases fragment, 0
  {
    hide Rendered, RenderedAll;
    var fields := fragment.fields;
    var body: seq<string> := [];
    RenderedAllLast([], Scalar(""), prefix + "  ");
    for i := 0 to |fields|
      invariant body == RenderedAll(fields[..i], prefix + "  ")
    {
      assert fields[..i + 1] == fields[..i] + [fields[i]];
      RenderedAllLast(fields[..i], fields[i], prefix + "  ");
      var child := RenderSelectionField(fields[i], prefix + "  ");
      body := body + child;
    }
    assert fields[..|fields|] == fields;
    if body == [] {
      return [];
    }
    lines := [prefix + "... on " + fragment.typeName + " {"] + body + [prefix + "}"];
  }

  method BuildSelectionSet(fields: seq<Field>, includes: seq<Include>, indent: nat) returns (lines: seq<string>)
    ensures lines == SelectionLines(fields, includes, indent)
  {
    hide Rendered, RenderedAll, RenderedInclude, Spaces;
    var prefix := Spaces(indent);
    lines := [];
    RenderedAllLast([], Scalar(""), prefix);
    for i := 0 to |fields|
      invariant lines == RenderedAll(fields[..i], prefix)
    {
      assert fields[..i + 1] == fields[..i] + [fields[i]];
      RenderedAllLast(fields[..i], fields[i], prefix);
      var child := RenderSelectionField(fields[i], prefix);
      lines := lines + child;
    }
    assert fields[..|fields|] == fields;
    ghost var before := lines;
    for i := 0 to |includes|
      invariant lines == before + RenderedIncludes(includes[..i], prefix)
    {
      assert includes[..i + 1][..i] == includes[..i];
      var nested := RenderInclude(includes[i], prefix);
      CatAssociates(before, RenderedIncludes(includes[..i], prefix), nested);
      lines := lines + nested;
    }
    assert includes[..|includes|] == includes;
  }

  method RenderInclude(relation: Include, prefix: string) returns (lines: seq<string>)
    ensures lines == RenderedInclude(relation, prefix)
  {
    hide ToSnake;
    var names := relation.fields;
    var nestedFields: seq<string> := [];
    for i := 0 to |names|
      invariant nestedFields == IncludeNames(names[..i], prefix + "    ")
    {
      nestedFields := nestedFields + [prefix + "    " + ToSnake(names[i])];
    }
    assert names[..|names|] == names;
    if nestedFields == [] {
      nestedFields := [prefix + "    " + "__typename"];
    }
    var argSuffix := if |relation.args| > 0 then "(" + relation.args + ")" else "";
    lines := [prefix + ToSnake(relation.relation) + argSuffix + " {"] + nestedFields + [prefix + "}"];
  }
}
