/**
 Two more facts about written selections: each line is indented by two spaces for every
 brace open around it, except below an include, and the tree read back can be turned into
 the one that was asked for.
 */
module SelectionLayout {
  import opened KeyCase
  import opened Selection
  import opened SelectionGrammar

  // ----- indentation

  function Indent(line: string): nat {
    if line == [] || line[0] != ' ' then 0 else 1 + Indent(line[1..])
  }

  predicate Opens(line: string) {
    line != [] && line[|line| - 1] == '{'
  }

  predicate Closes(line: string) {
    line != [] && line[|line| - 1] == '}'
  }

  /** How many braces are open after the lines. */
  function Depth(lines: seq<string>): int {
    if lines == [] then 0
    else
      var last := lines[|lines| - 1];
      Depth(lines[..|lines| - 1]) + if Opens(last) then 1 else if Closes(last) then -1 else 0
  }

  /** How many braces enclose a line; a closing line is outside the brace it closes. */
  function Level(lines: seq<string>, k: nat): int
    requires k < |lines|
  {
    Depth(lines[..k]) - if Closes(lines[k]) then 1 else 0
  }

  /** Braces balance, and every line is two spaces further in than its surroundings for each brace around it. */
  ghost predicate Laid(lines: seq<string>, width: nat) {
    Depth(lines) == 0 && forall k :: 0 <= k < |lines| ==> Indent(lines[k]) == width + 2 * Level(lines, k)
  }

  lemma {:induction false} DepthConcat(a: seq<string>, b: seq<string>)
    ensures Depth(a + b) == Depth(a) + Depth(b)
  {
    hide Opens, Closes;
    if b == [] {
      assert a + b == a;
    } else {
      assert (a + b)[..|a + b| - 1] == a + b[..|b| - 1];
      DepthConcat(a, b[..|b| - 1]);
    }
  }

  lemma LaidConcat(a: seq<string>, b: seq<string>, width: nat)
    requires Laid(a, width) && Laid(b, width)
    ensures Laid(a + b, width)
  {
    hide Indent, Depth, Closes;
    DepthConcat(a, b);
    forall k | 0 <= k < |a + b| ensures Indent((a + b)[k]) == width + 2 * Level(a + b, k) {
      if k < |a| {
        assert (a + b)[..k] == a[..k];
        assert Indent(a[k]) == width + 2 * Level(a, k);
      } else {
        assert (a + b)[..k] == a + b[..k - |a|];
        DepthConcat(a, b[..k - |a|]);
        assert Indent(b[k - |a|]) == width + 2 * Level(b, k - |a|);
      }
    }
  }

  lemma LaidLine(line: string, width: nat)
    requires Indent(line) == width && !Opens(line) && !Closes(line)
    ensures Laid([line], width)
  {
    hide Indent, Opens, Closes;
    DepthOne(line);
  }

  lemma DepthOne(line: string)
    ensures Depth([line]) == if Opens(line) then 1 else if Closes(line) then -1 else 0
    ensures Depth([]) == 0 && [line][..0] == []
  {
  }

  lemma LaidNothing(width: nat)
    ensures Laid([], width)
  {
  }

  lemma LaidBlock(opening: string, body: seq<string>, closing: string, width: nat)
    requires Indent(opening) == width && Opens(opening) && Indent(closing) == width && Closes(closing)
    requires Laid(body, width + 2)
    ensures Laid([opening] + body + [closing], width)
  {
    hide Indent, Depth;
    var all := [opening] + body + [closing];
    DepthOne(opening);
    DepthOne(closing);
    DepthConcat([opening], body);
    DepthConcat([opening] + body, [closing]);
    forall k | 0 <= k < |all| ensures Indent(all[k]) == width + 2 * Level(all, k) {
      if k == 0 {
        assert all[..0] == [];
      } else if k <= |body| {
        assert all[..k] == [opening] + body[..k - 1];
        DepthConcat([opening], body[..k - 1]);
        assert Indent(body[k - 1]) == width + 2 + 2 * Level(body, k - 1);
      } else {
        assert all[..k] == [opening] + body;
      }
    }
  }

  lemma {:induction false} IndentAfter(width: nat, s: string)
    requires s != [] && s[0] != ' '
    ensures Indent(Spaces(width) + s) == width
  {
    if width == 0 {
      assert Spaces(0) + s == s;
    } else {
      IndentAfter(width - 1, s);
      assert (Spaces(width) + s)[1..] == Spaces(width - 1) + s;
    }
  }

  lemma NameIndent(width: nat, name: string)
    requires IsName(name)
    ensures Indent(Spaces(width) + name) == width && !Opens(Spaces(width) + name) && !Closes(Spaces(width) + name)
    ensures Indent(Spaces(width) + name + " {") == width && Opens(Spaces(width) + name + " {")
  {
    hide Indent;
    IndentAfter(width, name);
    IndentAfter(width, name + " {");
    assert Spaces(width) + name + " {" == Spaces(width) + (name + " {");
    assert (Spaces(width) + name)[|Spaces(width) + name| - 1] == name[|name| - 1];
  }

  lemma CloseIndent(width: nat)
    ensures Indent(Spaces(width) + "}") == width && Closes(Spaces(width) + "}")
  {
    hide Indent;
    IndentAfter(width, "}");
  }

  lemma FragmentIndent(width: nat, name: string)
    ensures Indent(Spaces(width) + "... on " + name + " {") == width && Opens(Spaces(width) + "... on " + name + " {")
  {
    hide Indent;
    var s := "... on " + name + " {";
    IndentAfter(width, s);
    assert Spaces(width) + "... on " + name + " {" == Spaces(width) + s;
  }

  lemma Deeper(width: nat)
    ensures Spaces(width) + "  " == Spaces(width + 2) && Spaces(width) + "    " == Spaces(width + 4)
  {
  }

  /** Two spaces for every enclosing brace, in every rendered field. */
  lemma {:induction false} RenderedLaid(field: Field, width: nat)
    requires Named(field)
    ensures Laid(Rendered(field, Spaces(width)), width)
    decreases field, 1
  {
    hide Laid, Spaces, ToSnake, IsName, Body, AllNamed, OnNamed, Indent, Opens, Closes;
    SnakeIsName(field.name);
    NameIndent(width, ToSnake(field.name));
    if field.Scalar? {
      LaidLine(Spaces(width) + ToSnake(field.name), width);
    } else {
      BodyLaid(field, width);
      CloseIndent(width);
      LaidBlock(Spaces(width) + ToSnake(field.name) + " {", Body(field, Spaces(width)), Spaces(width) + "}", width);
    }
  }

  lemma {:induction false} BodyLaid(field: Field, width: nat)
    requires field.Nested? && Named(field)
    ensures Laid(Body(field, Spaces(width)), width + 2)
    decreases field, 0
  {
    hide Laid, Spaces, IsName, AllNamed, OnNamed, RenderedAll, RenderedOn, Indent, Opens, Closes;
    Deeper(width);
    AllLaid(field.fields, width + 2);
    OnLaid(field.on, width + 2);
    LaidConcat(RenderedAll(field.fields, Spaces(width + 2)), RenderedOn(field.on, Spaces(width + 2)), width + 2);
    OnIsName();
    NameIndent(width + 2, "__typename");
    LaidLine(Spaces(width + 2) + "__typename", width + 2);
  }

  lemma {:induction false} AllLaid(fields: seq<Field>, width: nat)
    requires AllNamed(fields)
    ensures Laid(RenderedAll(fields, Spaces(width)), width)
    decreases fields, 0
  {
    hide Laid, Spaces, Rendered, Named;
    LaidNothing(width);
    if fields == [] {
    } else {
      var rest, last := fields[..|fields| - 1], fields[|fields| - 1];
      AllLaid(rest, width);
      assert Named(last);
      RenderedLaid(last, width);
      LaidConcat(RenderedAll(rest, Spaces(width)), Rendered(last, Spaces(width)), width);
    }
  }

  lemma {:induction false} OnLaid(on: seq<Fragment>, width: nat)
    requires OnNamed(on)
    ensures Laid(RenderedOn(on, Spaces(width)), width)
    decreases on, 0
  {
    hide Laid, Spaces, RenderedFragment, FragmentNamed;
    LaidNothing(width);
    if on == [] {
    } else {
      var rest, last := on[..|on| - 1], on[|on| - 1];
      OnLaid(rest, width);
      assert FragmentNamed(last);
      FragmentLaid(last, width);
      LaidConcat(RenderedOn(rest, Spaces(width)), RenderedFragment(last, Spaces(width)), width);
    }
  }

  lemma {:induction false} FragmentLaid(fragment: Fragment, width: nat)
    requires FragmentNamed(fragment)
    ensures Laid(RenderedFragment(fragment, Spaces(width)), width)
    decreases fragment, 0
  {
    hide Laid, Spaces, RenderedAll, AllNamed, IsName, Indent, Opens, Closes;
    Deeper(width);
    LaidNothing(width);
    AllLaid(fragment.fields, width + 2);
    FragmentIndent(width, fragment.typeName);
    CloseIndent(width);
    LaidBlock(Spaces(width) + "... on " + fragment.typeName + " {", RenderedAll(fragment.fields, Spaces(width + 2)), Spaces(width) + "}", width);
  }

  /** The opening line of an include, with arguments or without. */
  lemma IncludeIndent(relation: Include, width: nat)
    requires IncludeNamed(relation)
    ensures var line := Spaces(width) + ToSnake(relation.relation) + ArgSuffix(relation.args) + " {"; Indent(line) == width && Opens(line)
  {
    hide Indent, ToSnake, ArgSuffix;
    SnakeIsName(relation.relation);
    var name := ToSnake(relation.relation) + ArgSuffix(relation.args) + " {";
    IndentAfter(width, name);
    assert Spaces(width) + ToSnake(relation.relation) + ArgSuffix(relation.args) + " {" == Spaces(width) + name;
  }

  /** The line below the opening of an include: four spaces further in, inside one brace more. */
  lemma SecondLine(relation: Include, width: nat)
    requires IncludeNamed(relation)
    ensures var lines := RenderedInclude(relation, Spaces(width));
      |lines| >= 2 && Opens(lines[0]) && Indent(lines[1]) == width + 4 && !Closes(lines[1])
  {
    hide Spaces, IsName, ToSnake, Indent, Opens, Closes, ArgSuffix;
    var name := if relation.fields == [] then "__typename" else ToSnake(relation.fields[0]);
    Deeper(width);
    OnIsName();
    IncludeIndent(relation, width);
    if relation.fields != [] { SnakeIsName(relation.fields[0]); }
    NameIndent(width + 4, name);
    assert RenderedInclude(relation, Spaces(width))[1] == Spaces(width + 4) + name;
  }

  lemma {:induction false} FirstInclude(includes: seq<Include>, prefix: string) returns (rest: seq<string>)
    requires includes != []
    ensures RenderedIncludes(includes, prefix) == RenderedInclude(includes[0], prefix) + rest
  {
    hide RenderedInclude;
    var n := |includes| - 1;
    if n == 0 {
      assert includes[..0] == [];
      rest := [];
    } else {
      rest := FirstInclude(includes[..n], prefix);
      rest := rest + RenderedInclude(includes[n], prefix);
    }
  }

  /** One line that breaks the rule after lines that keep it. */
  lemma LineBreaks(a: seq<string>, lines: seq<string>, rest: seq<string>, width: nat)
    requires Laid(a, width) && |lines| >= 2 && Opens(lines[0]) && Indent(lines[1]) == width + 4 && !Closes(lines[1])
    ensures !Laid(a + (lines + rest), width)
  {
    hide Indent, Opens, Closes, Depth;
    var all, k := a + (lines + rest), |a| + 1;
    assert all[..k] == a + [lines[0]];
    DepthConcat(a, [lines[0]]);
    DepthOne(lines[0]);
    assert Level(all, k) == 1 && all[k] == lines[1];
  }

  /**
   A whole selection set keeps the rule exactly when nothing is included: below an include
   the first field stands four spaces in, inside one brace.
   */
  lemma LaidIffNoIncludes(fields: seq<Field>, includes: seq<Include>, indent: nat)
    requires AllNamed(fields) && forall i :: 0 <= i < |includes| ==> IncludeNamed(includes[i])
    ensures Laid(SelectionLines(fields, includes, indent), indent) <==> includes == []
  {
    hide Laid, Spaces, AllNamed, IncludeNamed, RenderedAll, RenderedInclude;
    AllLaid(fields, indent);
    var a := RenderedAll(fields, Spaces(indent));
    if includes == [] {
      assert a + [] == a;
    } else {
      var rest := FirstInclude(includes, Spaces(indent));
      SecondLine(includes[0], indent);
      LineBreaks(a, RenderedInclude(includes[0], Spaces(indent)), rest, indent);
    }
  }

  // ----- getting the tree back

  /** A selection back in the terms it was asked in. */
  function Restored(sel: Sel): Field
    decreases sel, 1
  {
    match sel
    case Leaf(name) => Scalar(ToCamel(name))
    case Branch(name, sels) => Nested(ToCamel(name), RestoredFields(sels), RestoredOn(sels))
    case Inline(typeName, sels) => Nested(typeName, RestoredFields(sels), [])
  }

  function RestoredFields(sels: seq<Sel>): seq<Field>
    decreases sels, 0
  {
    if sels == [] then []
    else
      var last := sels[|sels| - 1];
      RestoredFields(sels[..|sels| - 1]) + if last.Inline? then [] else [Restored(last)]
  }

  function RestoredOn(sels: seq<Sel>): seq<Fragment>
    decreases sels, 0
  {
    if sels == [] then []
    else
      var last := sels[|sels| - 1];
      RestoredOn(sels[..|sels| - 1]) + if last.Inline? then [Fragment(last.typeName, RestoredFields(last.sels))] else []
  }

  /** Nothing to drop and nothing to add: every nested field and every fragment selects something, and camel-casing undoes the names. */
  ghost predicate Settled(field: Field)
    decreases field, 1
  {
    NoPair(field.name) && (field.Nested? ==> (field.fields != [] || field.on != []) && AllSettled(field.fields) && OnSettled(field.on))
  }

  ghost predicate AllSettled(fields: seq<Field>)
    decreases fields, 0
  {
    forall i :: 0 <= i < |fields| ==> Settled(fields[i])
  }

  ghost predicate FragmentSettled(fragment: Fragment)
    decreases fragment, 0
  {
    fragment.fields != [] && AllSettled(fragment.fields)
  }

  ghost predicate OnSettled(on: seq<Fragment>)
    decreases on, 0
  {
    forall i :: 0 <= i < |on| ==> FragmentSettled(on[i])
  }

  lemma RestoredLast(sels: seq<Sel>, sel: Sel)
    ensures RestoredFields(sels + [sel]) == RestoredFields(sels) + if sel.Inline? then [] else [Restored(sel)]
    ensures RestoredOn(sels + [sel]) == RestoredOn(sels) + if sel.Inline? then [Fragment(sel.typeName, RestoredFields(sel.sels))] else []
    ensures RestoredFields([]) == [] && RestoredOn([]) == []
  {
    hide Restored;
    assert (sels + [sel])[..|sels + [sel]| - 1] == sels;
  }

  lemma {:induction false} RestoredConcat(a: seq<Sel>, b: seq<Sel>)
    ensures RestoredFields(a + b) == RestoredFields(a) + RestoredFields(b)
    ensures RestoredOn(a + b) == RestoredOn(a) + RestoredOn(b)
  {
    hide RestoredFields, RestoredOn, Restored;
    RestoredLast([], Leaf(""));
    if b == [] {
      assert a + b == a;
    } else {
      var rest, last := b[..|b| - 1], b[|b| - 1];
      assert b == rest + [last] && a + b == (a + rest) + [last];
      RestoredConcat(a, rest);
      RestoredLast(rest, last);
      RestoredLast(a + rest, last);
    }
  }

  /** A settled field survives being written and read: the tree read back, in camel case, is the tree asked for. */
  lemma {:induction false} RestoresField(field: Field)
    requires Settled(field)
    ensures Restored(Normalised(field)) == field
    decreases field, 1
  {
    hide ToSnake, ToCamel, NoPair, RestoredFields, RestoredOn, NormalisedAll, NormalisedOn, AllSettled, OnSettled;
    CamelUndoesSnake(field.name);
    if field.Nested? {
      AllRestored(field.fields);
      OnRestored(field.on);
      RestoredConcat(NormalisedAll(field.fields), NormalisedOn(field.on));
      assert field.fields + [] == field.fields && [] + field.on == field.on;
      RestoredLast([], Leaf(""));
    }
  }

  lemma {:induction false} AllRestored(fields: seq<Field>)
    requires AllSettled(fields)
    ensures RestoredFields(NormalisedAll(fields)) == fields && RestoredOn(NormalisedAll(fields)) == []
    decreases fields, 0
  {
    hide Restored, RestoredFields, RestoredOn, Settled, Normalised;
    RestoredLast([], Leaf(""));
    if fields == [] {
    } else {
      var rest, last := fields[..|fields| - 1], fields[|fields| - 1];
      AllRestored(rest);
      assert Settled(last);
      RestoresField(last);
      NormalisedIsField(last);
      RestoredLast(NormalisedAll(rest), Normalised(last));
    }
  }

  lemma NormalisedIsField(field: Field)
    ensures !Normalised(field).Inline?
  {
  }

  lemma {:induction false} OnRestored(on: seq<Fragment>)
    requires OnSettled(on)
    ensures RestoredOn(NormalisedOn(on)) == on && RestoredFields(NormalisedOn(on)) == []
    decreases on, 0
  {
    hide Restored, RestoredFields, RestoredOn, FragmentSettled, NormalisedAll;
    RestoredLast([], Leaf(""));
    if on == [] {
    } else {
      var rest, last := on[..|on| - 1], on[|on| - 1];
      OnRestored(rest);
      assert FragmentSettled(last);
      SettledFragment(last);
      AllRestored(last.fields);
      RestoredLast(NormalisedOn(rest), Inline(last.typeName, NormalisedAll(last.fields)));
    }
  }

  lemma SettledFragment(fragment: Fragment)
    requires FragmentSettled(fragment)
    ensures fragment.fields != [] && AllSettled(fragment.fields)
  {
  }
}
