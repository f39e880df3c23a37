/**
 The rendered lines read as GraphQL: the tokens of section 2.1 and the selection sets of
 sections 2.4 and 2.8.2 of the GraphQL specification (October 2021), without aliases,
 arguments, directives, comments and fragment spreads, none of which is ever written.
 Reading back what was written gives the selection tree, normalised.
 */
module SelectionGrammar {
  import opened Collections
  import opened KeyCase
  import opened Selection

  datatype Token = Open | Close | Ellipsis | Name(text: string)

  /** A selection: a field with or without a selection set, or an inline fragment with one. */
  datatype Sel = Leaf(name: string) | Branch(name: string, sels: seq<Sel>) | Inline(typeName: string, sels: seq<Sel>)

  // ----- tokens

  predicate NameStart(c: char) {
    'a' <= c <= 'z' || 'A' <= c <= 'Z' || c == '_'
  }

  predicate NameContinue(c: char) {
    NameStart(c) || '0' <= c <= '9'
  }

  ghost predicate IsName(s: string) {
    s != [] && NameStart(s[0]) && forall i :: 0 <= i < |s| ==> NameContinue(s[i])
  }

  /** White space, line terminators, commas and the byte order mark separate tokens and mean nothing. */
  predicate Ignored(c: char) {
    c == ' ' || c == '\t' || c == '\n' || c == '\r' || c == ',' || c == '\U{FEFF}'
  }

  function NameLength(s: string): (n: nat)
    ensures n <= |s|
  {
    if s == [] || !NameContinue(s[0]) then 0 else 1 + NameLength(s[1..])
  }

  function Before(tokens: seq<Token>, rest: Option<seq<Token>>): Option<seq<Token>> {
    match rest case None => None case Some(more) => Some(tokens + more)
  }

  function Lex(s: string): Option<seq<Token>>
    decreases |s|
  {
    if s == [] then Some([])
    else if Ignored(s[0]) then Lex(s[1..])
    else if s[0] == '{' then Before([Open], Lex(s[1..]))
    else if s[0] == '}' then Before([Close], Lex(s[1..]))
    else if |s| >= 3 && s[0] == '.' && s[1] == '.' && s[2] == '.' then Before([Ellipsis], Lex(s[3..]))
    else if NameStart(s[0]) then
      var n := NameLength(s);
      Before([Name(s[..n])], Lex(s[n..]))
    else None
  }

  // ----- grammar

  /** One selection and what follows it. */
  function ParseOne(tokens: seq<Token>): (r: Option<(Sel, seq<Token>)>)
    ensures r.Some? ==> |r.value.1| < |tokens|
    decreases |tokens|, 0
  {
    if tokens == [] then None
    else
      match tokens[0]
      case Name(text) =>
        if |tokens| >= 2 && tokens[1] == Open then
          match ParseRest(tokens[2..])
          case None => None
          case Some((sels, rest)) => if sels == [] then None else Some((Branch(text, sels), rest))
        else Some((Leaf(text), tokens[1..]))
      case Ellipsis =>
        if |tokens| >= 4 && tokens[1] == Name("on") && tokens[2].Name? && tokens[3] == Open then
          match ParseRest(tokens[4..])
          case None => None
          case Some((sels, rest)) => if sels == [] then None else Some((Inline(tokens[2].text, sels), rest))
        else None
      case _ => None
  }

  /** Selections up to and with the closing brace, and what follows it. */
  function ParseRest(tokens: seq<Token>): (r: Option<(seq<Sel>, seq<Token>)>)
    ensures r.Some? ==> |r.value.1| < |tokens|
    decreases |tokens|, 1
  {
    if tokens == [] then None
    else if tokens[0] == Close then Some(([], tokens[1..]))
    else
      match ParseOne(tokens)
      case None => None
      case Some((sel, after)) =>
        match ParseRest(after)
        case None => None
        case Some((sels, rest)) => Some(([sel] + sels, rest))
  }

  /** A selection set by itself: braces around one selection or more. */
  function ParseSet(tokens: seq<Token>): Option<seq<Sel>> {
    if tokens == [] || tokens[0] != Open then None
    else
      match ParseRest(tokens[1..])
      case None => None
      case Some((sels, rest)) => if sels == [] || rest != [] then None else Some(sels)
  }

  // ----- the tokens of a tree

  function Tokens(sel: Sel): seq<Token>
    decreases sel, 0
  {
    match sel
    case Leaf(name) => [Name(name)]
    case Branch(name, sels) => [Name(name), Open] + TokensAll(sels) + [Close]
    case Inline(typeName, sels) => [Ellipsis, Name("on"), Name(typeName), Open] + TokensAll(sels) + [Close]
  }

  function TokensAll(sels: seq<Sel>): seq<Token>
    decreases sels, 1
  {
    if sels == [] then [] else Tokens(sels[0]) + TokensAll(sels[1..])
  }

  /** No pair of braces is empty. */
  ghost predicate NoEmptyBraces(sel: Sel)
    decreases sel, 0
  {
    match sel
    case Leaf(_) => true
    case Branch(_, sels) => sels != [] && NoneEmpty(sels)
    case Inline(_, sels) => sels != [] && NoneEmpty(sels)
  }

  ghost predicate NoneEmpty(sels: seq<Sel>)
    decreases sels, 1
  {
    forall i :: 0 <= i < |sels| ==> NoEmptyBraces(sels[i])
  }

  predicate StartsSelection(tokens: seq<Token>) {
    tokens != [] && tokens[0] != Open
  }

  lemma TokensStart(sel: Sel)
    ensures Tokens(sel) != [] && Tokens(sel)[0] != Open && Tokens(sel)[0] != Close
  {
    hide TokensAll;
  }

  lemma {:induction false} OneReadsBack(sel: Sel, rest: seq<Token>)
    requires NoEmptyBraces(sel) && StartsSelection(rest)
    ensures ParseOne(Tokens(sel) + rest) == Some((sel, rest))
    decreases sel, 0
  {
    hide TokensAll, NoneEmpty, ParseRest;
    var all := Tokens(sel) + rest;
    match sel
    case Leaf(name) =>
      assert all[1..] == rest;
    case Branch(name, sels) =>
      assert all[2..] == TokensAll(sels) + [Close] + rest;
      RestReadsBack(sels, rest);
    case Inline(typeName, sels) =>
      assert all[4..] == TokensAll(sels) + [Close] + rest;
      RestReadsBack(sels, rest);
  }

  lemma {:induction false} RestReadsBack(sels: seq<Sel>, rest: seq<Token>)
    requires NoneEmpty(sels)
    ensures ParseRest(TokensAll(sels) + [Close] + rest) == Some((sels, rest))
    decreases sels, 1
  {
    hide Tokens, NoEmptyBraces, ParseOne;
    var all := TokensAll(sels) + [Close] + rest;
    if sels == [] {
      assert all[1..] == rest;
    } else {
      var after := TokensAll(sels[1..]) + [Close] + rest;
      assert all == Tokens(sels[0]) + after;
      AfterStarts(sels[1..], rest);
      TokensStart(sels[0]);
      assert NoEmptyBraces(sels[0]);
      OneReadsBack(sels[0], after);
      RestReadsBack(sels[1..], rest);
      assert [sels[0]] + sels[1..] == sels;
    }
  }

  lemma AfterStarts(sels: seq<Sel>, rest: seq<Token>)
    ensures StartsSelection(TokensAll(sels) + [Close] + rest)
  {
    hide Tokens;
    if sels != [] { TokensStart(sels[0]); }
  }

  // ----- the tree that is written

  function Normalised(field: Field): Sel
    decreases field, 1
  {
    match field
    case Scalar(name) => Leaf(ToSnake(name))
    case Nested(name, fields, on) =>
      var body := NormalisedAll(fields) + NormalisedOn(on);
      Branch(ToSnake(name), if body == [] then [Leaf("__typename")] else body)
  }

  function NormalisedAll(fields: seq<Field>): seq<Sel>
    decreases fields, 0
  {
    if fields == [] then [] else NormalisedAll(fields[..|fields| - 1]) + [Normalised(fields[|fields| - 1])]
  }

  /** Fragments that select nothing are dropped. */
  function NormalisedOn(on: seq<Fragment>): seq<Sel>
    decreases on, 0
  {
    if on == [] then []
    else
      var last := on[|on| - 1];
      NormalisedOn(on[..|on| - 1]) + if last.fields == [] then [] else [Inline(last.typeName, NormalisedAll(last.fields))]
  }

  function NormalisedInclude(relation: Include): Sel {
    Branch(ToSnake(relation.relation), if relation.fields == [] then [Leaf("__typename")] else IncludeSels(relation.fields))
  }

  function IncludeSels(names: seq<string>): seq<Sel> {
    seq(|names|, i requires 0 <= i < |names| => Leaf(ToSnake(names[i])))
  }

  function NormalisedIncludes(includes: seq<Include>): seq<Sel> {
    if includes == [] then [] else NormalisedIncludes(includes[..|includes| - 1]) + [NormalisedInclude(includes[|includes| - 1])]
  }

  /** Names are GraphQL names throughout. */
  ghost predicate Named(field: Field)
    decreases field, 1
  {
    match field
    case Scalar(name) => IsName(name)
    case Nested(name, fields, on) => IsName(name) && AllNamed(fields) && OnNamed(on)
  }

  ghost predicate AllNamed(fields: seq<Field>)
    decreases fields, 0
  {
    forall i :: 0 <= i < |fields| ==> Named(fields[i])
  }

  ghost predicate FragmentNamed(fragment: Fragment)
    decreases fragment, 1
  {
    IsName(fragment.typeName) && AllNamed(fragment.fields)
  }

  ghost predicate OnNamed(on: seq<Fragment>)
    decreases on, 0
  {
    forall i :: 0 <= i < |on| ==> FragmentNamed(on[i])
  }

  /** An include without filter or sort. */
  ghost predicate PlainInclude(relation: Include) {
    relation.args == "" && IncludeNamed(relation)
  }

  ghost predicate IncludeNamed(relation: Include) {
    IsName(relation.relation) && forall i :: 0 <= i < |relation.fields| ==> IsName(relation.fields[i])
  }

  lemma {:induction false} SnakeContinues(s: string)
    requires forall i :: 0 <= i < |s| ==> NameContinue(s[i])
    ensures forall i :: 0 <= i < |ToSnake(s)| ==> NameContinue(ToSnake(s)[i])
  {
    if s == [] {
    } else {
      SnakeContinues(s[1..]);
    }
  }

  lemma SnakeIsName(s: string)
    requires IsName(s)
    ensures IsName(ToSnake(s))
  {
    SnakeContinues(s);
  }

  // ----- no empty braces in it

  lemma {:induction false} NormalisedFull(field: Field)
    ensures NoEmptyBraces(Normalised(field))
    decreases field, 1
  {
    hide NormalisedAll, NormalisedOn, NoneEmpty;
    if field.Nested? {
      AllFull(field.fields);
      OnFull(field.on);
      FullConcat(NormalisedAll(field.fields), NormalisedOn(field.on));
      TypenameFull();
    }
  }

  lemma TypenameFull()
    ensures NoneEmpty([Leaf("__typename")])
  {
  }

  lemma FullConcat(a: seq<Sel>, b: seq<Sel>)
    requires NoneEmpty(a) && NoneEmpty(b)
    ensures NoneEmpty(a + b)
  {
    hide NoEmptyBraces;
  }

  lemma {:induction false} AllFull(fields: seq<Field>)
    ensures NoneEmpty(NormalisedAll(fields)) && (NormalisedAll(fields) == [] <==> fields == [])
    decreases fields, 0
  {
    hide Normalised, NoEmptyBraces;
    if fields == [] {
    } else {
      AllFull(fields[..|fields| - 1]);
      NormalisedFull(fields[|fields| - 1]);
    }
  }

  lemma {:induction false} OnFull(on: seq<Fragment>)
    ensures NoneEmpty(NormalisedOn(on))
    decreases on, 0
  {
    hide NormalisedAll;
    if on == [] {
    } else {
      var last := on[|on| - 1];
      OnFull(on[..|on| - 1]);
      AllFull(last.fields);
      if last.fields == [] {
      } else {
        FullConcat(NormalisedOn(on[..|on| - 1]), [Inline(last.typeName, NormalisedAll(last.fields))]);
      }
    }
  }

  // ----- reading text

  /** The text gives these tokens, whatever comes after it. */
  ghost predicate Gives(text: string, tokens: seq<Token>) {
    forall s :: Lex(text + s) == Before(tokens, Lex(s))
  }

  predicate EndsName(s: string) {
    s == [] || !NameContinue(s[0])
  }

  ghost predicate Blank(s: string) {
    forall i :: 0 <= i < |s| ==> s[i] == ' '
  }

  lemma {:induction false} LexBlank(prefix: string, s: string)
    requires Blank(prefix)
    ensures Lex(prefix + s) == Lex(s)
  {
    hide Lex;
    if prefix == [] {
      assert prefix + s == s;
    } else {
      assert (prefix + s)[1..] == prefix[1..] + s;
      LexIgnored(prefix + s);
      LexBlank(prefix[1..], s);
    }
  }

  lemma LexIgnored(s: string)
    requires s != [] && Ignored(s[0])
    ensures Lex(s) == Lex(s[1..])
  {
  }

  lemma {:induction false} NameLengthOf(name: string, s: string)
    requires (forall i :: 0 <= i < |name| ==> NameContinue(name[i])) && EndsName(s)
    ensures NameLength(name + s) == |name|
  {
    if name == [] {
      assert name + s == s;
    } else {
      assert (name + s)[1..] == name[1..] + s;
      NameLengthOf(name[1..], s);
    }
  }

  lemma LexName(name: string, s: string)
    requires IsName(name) && EndsName(s)
    ensures Lex(name + s) == Before([Name(name)], Lex(s))
  {
    var all := name + s;
    NameLengthOf(name, s);
    assert all[..|name|] == name && all[|name|..] == s;
    assert all[0] == name[0];
    hide NameLength;
  }

  lemma LexPunctuators(s: string)
    ensures Lex(['{'] + s) == Before([Open], Lex(s))
    ensures Lex(['}'] + s) == Before([Close], Lex(s))
    ensures Lex(['.', '.', '.'] + s) == Before([Ellipsis], Lex(s))
    ensures Lex([' '] + s) == Lex(s) && Lex(['\n'] + s) == Lex(s)
  {
    assert (['{'] + s)[1..] == s && (['}'] + s)[1..] == s && (['.', '.', '.'] + s)[3..] == s;
    assert ([' '] + s)[1..] == s && (['\n'] + s)[1..] == s;
  }

  lemma BeforeTwice(a: seq<Token>, b: seq<Token>, rest: Option<seq<Token>>)
    ensures Before(a, Before(b, rest)) == Before(a + b, rest)
    ensures Before([], rest) == rest
  {
    if rest.Some? {
      assert a + (b + rest.value) == (a + b) + rest.value;
      assert [] + rest.value == rest.value;
    }
  }

  lemma GivesBoth(a: string, ta: seq<Token>, b: string, tb: seq<Token>)
    requires Gives(a, ta) && Gives(b, tb)
    ensures Gives(a + b, ta + tb)
  {
    hide Lex, Before;
    forall s ensures Lex(a + b + s) == Before(ta + tb, Lex(s)) {
      assert a + b + s == a + (b + s);
      assert Lex(a + (b + s)) == Before(ta, Lex(b + s));
      BeforeTwice(ta, tb, Lex(s));
    }
  }

  // ----- lines

  function Text(lines: seq<string>): string {
    if lines == [] then [] else Text(lines[..|lines| - 1]) + (lines[|lines| - 1] + "\n")
  }

  lemma {:induction false} TextConcat(a: seq<string>, b: seq<string>)
    ensures Text(a + b) == Text(a) + Text(b)
  {
    if b == [] {
      assert a + b == a;
    } else {
      var rest, last := b[..|b| - 1], b[|b| - 1];
      assert (a + b)[..|a + b| - 1] == a + rest;
      TextConcat(a, rest);
    }
  }

  lemma TextOne(line: string)
    ensures Text([line]) == line + "\n" && Text([]) == []
  {
    assert [line][..0] == [];
  }

  lemma NameLine(prefix: string, name: string)
    requires Blank(prefix) && IsName(name)
    ensures Gives(Text([prefix + name]), [Name(name)])
  {
    hide Lex, Before, IsName, Blank;
    TextOne(prefix + name);
    forall s ensures Lex(Text([prefix + name]) + s) == Before([Name(name)], Lex(s)) {
      var after := ['\n'] + s;
      assert Text([prefix + name]) + s == prefix + (name + after);
      LexBlank(prefix, name + after);
      LexName(name, after);
      LexPunctuators(s);
    }
  }

  lemma OpenLine(prefix: string, name: string)
    requires Blank(prefix) && IsName(name)
    ensures Gives(Text([prefix + name + " {"]), [Name(name), Open])
  {
    hide Lex, Before, IsName, Blank;
    TextOne(prefix + name + " {");
    forall s ensures Lex(Text([prefix + name + " {"]) + s) == Before([Name(name), Open], Lex(s)) {
      var after := ['\n'] + s;
      assert Text([prefix + name + " {"]) + s == prefix + (name + ([' '] + (['{'] + after)));
      LexBlank(prefix, name + ([' '] + (['{'] + after)));
      LexName(name, [' '] + (['{'] + after));
      LexPunctuators(['{'] + after);
      LexPunctuators(after);
      LexPunctuators(s);
      BeforeTwice([Name(name)], [Open], Lex(s));
      assert [Name(name)] + [Open] == [Name(name), Open];
    }
  }

  lemma CloseLine(prefix: string)
    requires Blank(prefix)
    ensures Gives(Text([prefix + "}"]), [Close])
  {
    hide Lex, Before, Blank;
    TextOne(prefix + "}");
    forall s ensures Lex(Text([prefix + "}"]) + s) == Before([Close], Lex(s)) {
      var after := ['\n'] + s;
      assert Text([prefix + "}"]) + s == prefix + (['}'] + after);
      LexBlank(prefix, ['}'] + after);
      LexPunctuators(after);
      LexPunctuators(s);
    }
  }

  lemma OnIsName()
    ensures IsName("on") && IsName("__typename")
  {
  }

  lemma FragmentLine(prefix: string, name: string)
    requires Blank(prefix) && IsName(name)
    ensures Gives(Text([prefix + "... on " + name + " {"]), [Ellipsis, Name("on"), Name(name), Open])
  {
    hide Lex, Before, IsName, Blank, Text;
    var line := prefix + "... on " + name + " {";
    TextOne(line);
    OnIsName();
    NoBlank();
    OpenLine([], name);
    assert [] + name + " {" == name + " {";
    var tail := Text([name + " {"]);
    TextOne(name + " {");
    forall s ensures Lex(Text([line]) + s) == Before([Ellipsis, Name("on"), Name(name), Open], Lex(s)) {
      var rest := [' '] + (tail + s);
      assert Text([line]) + s == prefix + (['.', '.', '.'] + ([' '] + ("on" + rest)));
      LexBlank(prefix, ['.', '.', '.'] + ([' '] + ("on" + rest)));
      LexPunctuators([' '] + ("on" + rest));
      LexPunctuators("on" + rest);
      LexName("on", rest);
      LexPunctuators(tail + s);
      assert Lex(tail + s) == Before([Name(name), Open], Lex(s));
      BeforeTwice([Name("on")], [Name(name), Open], Lex(s));
      BeforeTwice([Ellipsis], [Name("on")] + [Name(name), Open], Lex(s));
      assert [Ellipsis] + ([Name("on")] + [Name(name), Open]) == [Ellipsis, Name("on"), Name(name), Open];
    }
  }

  lemma NoBlank()
    ensures Blank([])
  {
  }

  // ----- rendered fields

  lemma DeeperBlank(prefix: string)
    requires Blank(prefix)
    ensures Blank(prefix + "  ") && Blank(prefix + "    ")
  {
  }

  lemma {:induction false} TokensAllConcat(a: seq<Sel>, b: seq<Sel>)
    ensures TokensAll(a + b) == TokensAll(a) + TokensAll(b)
  {
    hide Tokens;
    if a == [] {
      assert a + b == b;
    } else {
      assert (a + b)[1..] == a[1..] + b;
      TokensAllConcat(a[1..], b);
    }
  }

  lemma TokensAllOne(sel: Sel)
    ensures TokensAll([sel]) == Tokens(sel) && TokensAll([]) == []
  {
    hide Tokens;
    assert [sel][1..] == [];
  }

  lemma GivesNothing()
    ensures Gives(Text([]), [])
  {
    forall s ensures Lex(Text([]) + s) == Before([], Lex(s)) {
      assert Text([]) + s == s;
      BeforeTwice([], [], Lex(s));
    }
  }

  /** A block: an opening line, a body, a closing line. */
  lemma BlockGives(opening: string, head: seq<Token>, body: seq<string>, sels: seq<Sel>, prefix: string)
    requires Gives(Text([opening]), head) && Gives(Text(body), TokensAll(sels)) && Blank(prefix)
    ensures Gives(Text([opening] + body + [prefix + "}"]), head + TokensAll(sels) + [Close])
  {
    hide Gives, Text, TokensAll, Blank;
    TextConcat([opening], body);
    TextConcat([opening] + body, [prefix + "}"]);
    CloseLine(prefix);
    GivesBoth(Text([opening]), head, Text(body), TokensAll(sels));
    GivesBoth(Text([opening] + body), head + TokensAll(sels), Text([prefix + "}"]), [Close]);
  }

  lemma {:induction false} RenderedGives(field: Field, prefix: string)
    requires Named(field) && Blank(prefix)
    ensures Gives(Text(Rendered(field, prefix)), Tokens(Normalised(field)))
    decreases field, 1
  {
    hide Gives, Text, TokensAll, Blank, IsName, ToSnake, AllNamed, OnNamed, RenderedAll, RenderedOn, NormalisedAll, NormalisedOn, Body;
    SnakeIsName(field.name);
    match field
    case Scalar(name) =>
      NameLine(prefix, ToSnake(name));
    case Nested(name, fields, on) =>
      BodyGives(field, prefix);
      OpenLine(prefix, ToSnake(name));
      BlockGives(prefix + ToSnake(name) + " {", [Name(ToSnake(name)), Open], Body(field, prefix), Normalised(field).sels, prefix);
  }

  lemma {:induction false} BodyGives(field: Field, prefix: string)
    requires field.Nested? && Named(field) && Blank(prefix)
    ensures Gives(Text(Body(field, prefix)), TokensAll(Normalised(field).sels))
    decreases field, 0
  {
    hide Gives, Text, TokensAll, Tokens, Blank, IsName, ToSnake, AllNamed, OnNamed, RenderedAll, RenderedOn, NormalisedAll, NormalisedOn;
    var deeper := prefix + "  ";
    DeeperBlank(prefix);
    var a, b := RenderedAll(field.fields, deeper), RenderedOn(field.on, deeper);
    AllGives(field.fields, deeper);
    OnGives(field.on, deeper);
    BodyEmpty(field, deeper);
    if a + b == [] {
      OnIsName();
      NameLine(deeper, "__typename");
      TokensAllOne(Leaf("__typename"));
      TypenameTokens();
    } else {
      TextConcat(a, b);
      GivesBoth(Text(a), TokensAll(NormalisedAll(field.fields)), Text(b), TokensAll(NormalisedOn(field.on)));
      TokensAllConcat(NormalisedAll(field.fields), NormalisedOn(field.on));
    }
  }

  lemma TypenameTokens()
    ensures Tokens(Leaf("__typename")) == [Name("__typename")]
  {
  }

  /** Text and tree agree on when there is nothing to select. */
  lemma BodyEmpty(field: Field, prefix: string)
    requires field.Nested?
    ensures RenderedAll(field.fields, prefix) + RenderedOn(field.on, prefix) == [] <==> NormalisedAll(field.fields) + NormalisedOn(field.on) == []
  {
    hide RenderedAll, RenderedOn, NormalisedAll, NormalisedOn;
    NothingIffNothing(field.fields, prefix);
    AllFull(field.fields);
    OnEmpty(field.on, prefix);
  }

  lemma {:induction false} OnEmpty(on: seq<Fragment>, prefix: string)
    ensures RenderedOn(on, prefix) == [] <==> NormalisedOn(on) == []
  {
    hide RenderedAll, NormalisedAll;
    if on == [] {
    } else {
      OnEmpty(on[..|on| - 1], prefix);
      NothingIffNothing(on[|on| - 1].fields, prefix + "  ");
    }
  }

  lemma {:induction false} AllGives(fields: seq<Field>, prefix: string)
    requires AllNamed(fields) && Blank(prefix)
    ensures Gives(Text(RenderedAll(fields, prefix)), TokensAll(NormalisedAll(fields)))
    decreases fields, 0
  {
    hide Gives, Text, TokensAll, Tokens, Blank, Named, Rendered, Normalised;
    if fields == [] {
      GivesNothing();
      TokensAllOne(Leaf(""));
    } else {
      var rest, last := fields[..|fields| - 1], fields[|fields| - 1];
      AllGives(rest, prefix);
      assert Named(last);
      RenderedGives(last, prefix);
      TextConcat(RenderedAll(rest, prefix), Rendered(last, prefix));
      GivesBoth(Text(RenderedAll(rest, prefix)), TokensAll(NormalisedAll(rest)), Text(Rendered(last, prefix)), Tokens(Normalised(last)));
      TokensAllConcat(NormalisedAll(rest), [Normalised(last)]);
      TokensAllOne(Normalised(last));
    }
  }

  lemma {:induction false} OnGives(on: seq<Fragment>, prefix: string)
    requires OnNamed(on) && Blank(prefix)
    ensures Gives(Text(RenderedOn(on, prefix)), TokensAll(NormalisedOn(on)))
    decreases on, 0
  {
    hide Gives, Text, TokensAll, Tokens, Blank, FragmentNamed, NormalisedAll, RenderedFragment;
    TokensAllOne(Leaf(""));
    if on == [] {
      GivesNothing();
    } else {
      var rest, last := on[..|on| - 1], on[|on| - 1];
      OnGives(rest, prefix);
      assert FragmentNamed(last);
      var sels := if last.fields == [] then [] else [Inline(last.typeName, NormalisedAll(last.fields))];
      FragmentGives(last, prefix);
      TextConcat(RenderedOn(rest, prefix), RenderedFragment(last, prefix));
      GivesBoth(Text(RenderedOn(rest, prefix)), TokensAll(NormalisedOn(rest)), Text(RenderedFragment(last, prefix)), TokensAll(sels));
      TokensAllConcat(NormalisedOn(rest), sels);
    }
  }

  lemma {:induction false} FragmentGives(fragment: Fragment, prefix: string)
    requires FragmentNamed(fragment) && Blank(prefix)
    ensures Gives(Text(RenderedFragment(fragment, prefix)), TokensAll(if fragment.fields == [] then [] else [Inline(fragment.typeName, NormalisedAll(fragment.fields))]))
    decreases fragment, 0
  {
    hide Gives, Text, TokensAll, Blank, IsName, AllNamed, NormalisedAll, RenderedAll;
    var deeper := prefix + "  ";
    DeeperBlank(prefix);
    NothingIffNothing(fragment.fields, deeper);
    if fragment.fields == [] {
      GivesNothing();
      TokensAllOne(Leaf(""));
    } else {
      AllGives(fragment.fields, deeper);
      FragmentLine(prefix, fragment.typeName);
      BlockGives(prefix + "... on " + fragment.typeName + " {", [Ellipsis, Name("on"), Name(fragment.typeName), Open],
                 RenderedAll(fragment.fields, deeper), NormalisedAll(fragment.fields), prefix);
      TokensAllOne(Inline(fragment.typeName, NormalisedAll(fragment.fields)));
    }
  }

  lemma {:induction false} NamesGive(names: seq<string>, prefix: string)
    requires (forall i :: 0 <= i < |names| ==> IsName(names[i])) && Blank(prefix)
    ensures Gives(Text(IncludeNames(names, prefix)), TokensAll(IncludeSels(names)))
  {
    hide Gives, Text, TokensAll, Tokens, Blank, IsName, ToSnake;
    if names == [] {
      assert IncludeNames(names, prefix) == [] && IncludeSels(names) == [];
      GivesNothing();
      TokensAllOne(Leaf(""));
    } else {
      var rest, last := names[..|names| - 1], names[|names| - 1];
      var sel := Leaf(ToSnake(last));
      NamesGive(rest, prefix);
      SnakeIsName(last);
      NameLine(prefix, ToSnake(last));
      assert IncludeNames(names, prefix) == IncludeNames(rest, prefix) + [prefix + ToSnake(last)];
      assert IncludeSels(names) == IncludeSels(rest) + [sel];
      TextConcat(IncludeNames(rest, prefix), [prefix + ToSnake(last)]);
      assert Tokens(sel) == [Name(ToSnake(last))] by { ScalarTokens(ToSnake(last)); }
      GivesBoth(Text(IncludeNames(rest, prefix)), TokensAll(IncludeSels(rest)), Text([prefix + ToSnake(last)]), Tokens(sel));
      TokensAllConcat(IncludeSels(rest), [sel]);
      TokensAllOne(sel);
    }
  }

  lemma ScalarTokens(name: string)
    ensures Tokens(Leaf(name)) == [Name(name)]
  {
  }

  lemma IncludeGives(relation: Include, prefix: string)
    requires PlainInclude(relation) && Blank(prefix)
    ensures Gives(Text(RenderedInclude(relation, prefix)), Tokens(NormalisedInclude(relation)))
  {
    hide Gives, Text, TokensAll, Blank, IsName, ToSnake, IncludeNames, IncludeSels;
    var deeper := prefix + "    ";
    DeeperBlank(prefix);
    SnakeIsName(relation.relation);
    OpenLine(prefix, ToSnake(relation.relation));
    var sels := NormalisedInclude(relation).sels;
    var names := if relation.fields == [] then [deeper + "__typename"] else IncludeNames(relation.fields, deeper);
    assert prefix + ToSnake(relation.relation) + "" + " {" == prefix + ToSnake(relation.relation) + " {";
    if relation.fields == [] {
      OnIsName();
      NameLine(deeper, "__typename");
      TokensAllOne(Leaf("__typename"));
      TypenameTokens();
    } else {
      NamesGive(relation.fields, deeper);
    }
    BlockGives(prefix + ToSnake(relation.relation) + " {", [Name(ToSnake(relation.relation)), Open], names, sels, prefix);
  }

  lemma {:induction false} IncludesGive(includes: seq<Include>, prefix: string)
    requires (forall i :: 0 <= i < |includes| ==> PlainInclude(includes[i])) && Blank(prefix)
    ensures Gives(Text(RenderedIncludes(includes, prefix)), TokensAll(NormalisedIncludes(includes)))
  {
    hide Gives, Text, TokensAll, Tokens, Blank, PlainInclude, RenderedInclude, NormalisedInclude;
    if includes == [] {
      GivesNothing();
      TokensAllOne(Leaf(""));
    } else {
      var rest, last := includes[..|includes| - 1], includes[|includes| - 1];
      IncludesGive(rest, prefix);
      IncludeGives(last, prefix);
      TextConcat(RenderedIncludes(rest, prefix), RenderedInclude(last, prefix));
      GivesBoth(Text(RenderedIncludes(rest, prefix)), TokensAll(NormalisedIncludes(rest)), Text(RenderedInclude(last, prefix)), Tokens(NormalisedInclude(last)));
      TokensAllConcat(NormalisedIncludes(rest), [NormalisedInclude(last)]);
      TokensAllOne(NormalisedInclude(last));
    }
  }

  lemma {:induction false} IncludesFull(includes: seq<Include>)
    ensures NoneEmpty(NormalisedIncludes(includes)) && (NormalisedIncludes(includes) == [] <==> includes == [])
  {
    hide ToSnake;
    if includes == [] {
    } else {
      IncludesFull(includes[..|includes| - 1]);
      IncludeFull(includes[|includes| - 1]);
    }
  }

  lemma IncludeFull(relation: Include)
    ensures NoEmptyBraces(NormalisedInclude(relation))
  {
    hide ToSnake;
    TypenameFull();
    assert NoneEmpty(IncludeSels(relation.fields));
  }

  // ----- the whole set

  /** `lines.join('\n')`. */
  function Join(lines: seq<string>): string {
    if lines == [] then []
    else if |lines| == 1 then lines[0]
    else Join(lines[..|lines| - 1]) + "\n" + lines[|lines| - 1]
  }

  lemma {:induction false} JoinIsText(lines: seq<string>)
    requires lines != []
    ensures Join(lines) + "\n" == Text(lines)
  {
    if |lines| == 1 {
      TextOne(lines[0]);
      assert lines == [lines[0]];
    } else {
      JoinIsText(lines[..|lines| - 1]);
    }
  }

  function Tree(fields: seq<Field>, includes: seq<Include>): seq<Sel> {
    NormalisedAll(fields) + NormalisedIncludes(includes)
  }

  /** The braces the query puts around the joined lines: `results {` and what comes before it left out. */
  function InBraces(lines: seq<string>, indent: nat): string {
    "{\n" + Join(lines) + "\n" + Spaces(indent) + "}"
  }

  lemma LinesGive(fields: seq<Field>, includes: seq<Include>, indent: nat)
    requires AllNamed(fields) && forall i :: 0 <= i < |includes| ==> PlainInclude(includes[i])
    ensures Gives(Text(SelectionLines(fields, includes, indent)), TokensAll(Tree(fields, includes)))
  {
    hide Gives, Text, TokensAll, AllNamed, PlainInclude, RenderedAll, RenderedIncludes, NormalisedAll, NormalisedIncludes;
    var prefix := Spaces(indent);
    AllGives(fields, prefix);
    IncludesGive(includes, prefix);
    var a, b := RenderedAll(fields, prefix), RenderedIncludes(includes, prefix);
    TextConcat(a, b);
    GivesBoth(Text(a), TokensAll(NormalisedAll(fields)), Text(b), TokensAll(NormalisedIncludes(includes)));
    TokensAllConcat(NormalisedAll(fields), NormalisedIncludes(includes));
  }

  lemma LexBraces(lines: seq<string>, tokens: seq<Token>, indent: nat)
    requires lines != [] && Gives(Text(lines), tokens)
    ensures Lex(InBraces(lines, indent)) == Some([Open] + tokens + [Close])
  {
    hide Lex, Text, Join;
    JoinIsText(lines);
    var end := Spaces(indent) + "}";
    var text := Text(lines) + end;
    assert InBraces(lines, indent) == ['{'] + (['\n'] + text);
    LexPunctuators(['\n'] + text);
    LexPunctuators(text);
    EndsLex(indent);
    assert Lex(text) == Before(tokens, Lex(end));
    assert [Open] + (tokens + [Close]) == [Open] + tokens + [Close];
  }

  lemma EndsLex(indent: nat)
    ensures Lex(Spaces(indent) + "}") == Some([Close])
  {
    hide Lex;
    LexBlank(Spaces(indent), "}");
    LexPunctuators([]);
    assert ['}'] + [] == "}";
    LexNothing();
    assert [Close] + [] == [Close];
  }

  lemma LexNothing()
    ensures Lex([]) == Some([])
  {
  }

  lemma SetReadsBack(sels: seq<Sel>)
    requires NoneEmpty(sels)
    ensures ParseSet([Open] + TokensAll(sels) + [Close]) == if sels == [] then None else Some(sels)
  {
    hide TokensAll, ParseRest, NoneEmpty;
    var tokens := [Open] + TokensAll(sels) + [Close];
    assert tokens[1..] == TokensAll(sels) + [Close] + [];
    RestReadsBack(sels, []);
  }

  /**
   The selection set of a query, read by the grammar, is the tree that was asked for: empty
   fragments dropped, `__typename` where a nested field would select nothing, names in
   snake case, order kept; and no pair of braces in it is empty.
   */
  lemma WrittenReadsBack(fields: seq<Field>, includes: seq<Include>, indent: nat)
    requires AllNamed(fields) && forall i :: 0 <= i < |includes| ==> PlainInclude(includes[i])
    requires fields != [] || includes != []
    ensures var tokens := Lex(InBraces(SelectionLines(fields, includes, indent), indent));
      tokens.Some? && ParseSet(tokens.value) == Some(Tree(fields, includes))
    ensures NoneEmpty(Tree(fields, includes))
  {
    hide Lex, Join, InBraces, Gives, Text, TokensAll, AllNamed, PlainInclude, RenderedAll, RenderedIncludes, NormalisedAll, NormalisedIncludes, NoneEmpty, ParseSet;
    TreeFull(fields, includes);
    LinesGive(fields, includes, indent);
    LinesSome(fields, includes, indent);
    LexBraces(SelectionLines(fields, includes, indent), TokensAll(Tree(fields, includes)), indent);
    SetReadsBack(Tree(fields, includes));
  }

  lemma TreeFull(fields: seq<Field>, includes: seq<Include>)
    ensures NoneEmpty(Tree(fields, includes)) && (Tree(fields, includes) == [] <==> fields == [] && includes == [])
  {
    hide NoneEmpty, NormalisedAll, NormalisedIncludes;
    AllFull(fields);
    IncludesFull(includes);
    FullConcat(NormalisedAll(fields), NormalisedIncludes(includes));
  }

  lemma LinesSome(fields: seq<Field>, includes: seq<Include>, indent: nat)
    ensures SelectionLines(fields, includes, indent) == [] <==> fields == [] && includes == []
  {
    hide RenderedAll, ToSnake;
    NothingIffNothing(fields, Spaces(indent));
  }

  /** Asked for nothing at the top, the query has an empty selection set, which is no GraphQL: nothing adds `__typename` there. */
  lemma ValidIffSomethingAsked(fields: seq<Field>, includes: seq<Include>, indent: nat)
    requires AllNamed(fields) && forall i :: 0 <= i < |includes| ==> PlainInclude(includes[i])
    ensures var tokens := Lex(InBraces(SelectionLines(fields, includes, indent), indent));
      tokens.Some? && (ParseSet(tokens.value).Some? <==> fields != [] || includes != [])
  {
    hide Lex, InBraces, AllNamed, PlainInclude, ParseSet, Tree;
    if fields == [] && includes == [] {
      LinesSome(fields, includes, indent);
      EmptyBraces(indent);
    } else {
      WrittenReadsBack(fields, includes, indent);
    }
  }

  lemma EmptyBraces(indent: nat)
    ensures Lex(InBraces([], indent)) == Some([Open, Close]) && ParseSet([Open, Close]) == None
  {
    hide Lex;
    var end := Spaces(indent) + "}";
    assert InBraces([], indent) == ['{'] + (['\n'] + (['\n'] + end));
    LexPunctuators(['\n'] + (['\n'] + end));
    LexPunctuators(['\n'] + end);
    LexPunctuators(end);
    EndsLex(indent);
    assert [Open] + [Close] == [Open, Close];
    assert [Open, Close][1..] == [Close] && ParseRest([Close]) == Some(([], []));
  }
}
