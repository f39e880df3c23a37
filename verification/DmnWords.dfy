/**
 The decision-table attributes that are normalised before they are compared
 (`parseHitPolicy`, `parseAggregation` and `parsePreferredOrientation` in
 packages/js/sdk/src/dmn/parser.ts), and the words the DMN schema writes for them.
 */
module DmnWords {
  import opened Collections
  import opened Xml

  datatype HitPolicy = Unique | First | Any | Collect | RuleOrder | OutputOrder | Priority
  datatype Aggregation = Sum | Min | Max | Count
  datatype Orientation = RuleAsRow | RuleAsColumn | CrossTable

  /**
   `toUpperCase` of ECMAScript, for every character whose upper case is plain ASCII.
   Any other character stays as it is: neither it nor its upper case is in any word
   compared against.
   */
  function UpperChar(c: char): string {
    if 'a' <= c <= 'z' then [(c as int - 32) as char]
    else if c == '\U{0131}' then "I"
    else if c == '\U{017F}' then "S"
    else if c == '\U{00DF}' then "SS"
    else if c == '\U{FB00}' then "FF"
    else if c == '\U{FB01}' then "FI"
    else if c == '\U{FB02}' then "FL"
    else if c == '\U{FB03}' then "FFI"
    else if c == '\U{FB04}' then "FFL"
    else if c == '\U{FB05}' || c == '\U{FB06}' then "ST"
    else [c]
  }

  function Upper(s: string): string {
    if s == [] then [] else UpperChar(s[0]) + Upper(s[1..])
  }

  /** `toLowerCase`, likewise. */
  function LowerChar(c: char): char {
    if 'A' <= c <= 'Z' then (c as int + 32) as char
    else if c == '\U{212A}' then 'k'
    else c
  }

  function Lower(s: string): string {
    seq(|s|, i requires 0 <= i < |s| => LowerChar(s[i]))
  }

  /** Each run of white space replaced by one character. */
  function Joined(s: string, c: char): string
    decreases |s|
  {
    if s == [] then []
    else if IsSpace(s[0]) then
      TrimStartShorter(s);
      [c] + Joined(TrimStart(s), c)
    else [s[0]] + Joined(s[1..], c)
  }

  lemma {:induction false} TrimStartShorter(s: string)
    ensures |TrimStart(s)| <= |s|
    ensures s != [] && IsSpace(s[0]) ==> |TrimStart(s)| < |s|
  {
    if s != [] && IsSpace(s[0]) { TrimStartShorter(s[1..]); }
  }

  function ParseHitPolicy(raw: Option<string>): HitPolicy {
    if raw.None? || raw.value == "" then Unique
    else
      var word := Joined(Upper(Trim(raw.value)), '_');
      if word == "UNIQUE" || word == "U" then Unique
      else if word == "FIRST" || word == "F" then First
      else if word == "ANY" || word == "A" then Any
      else if word == "COLLECT" || word == "C" then Collect
      else if word == "RULE_ORDER" || word == "R" then RuleOrder
      else if word == "OUTPUT_ORDER" || word == "O" then OutputOrder
      else if word == "PRIORITY" || word == "P" then Priority
      else Unique
  }

  function ParseAggregation(raw: Option<string>): Option<Aggregation> {
    if raw.None? || raw.value == "" then None
    else
      var word := Upper(Trim(raw.value));
      if word == "SUM" then Some(Sum)
      else if word == "MIN" then Some(Min)
      else if word == "MAX" then Some(Max)
      else if word == "COUNT" then Some(Count)
      else None
  }

  function ParseOrientation(raw: Option<string>): Orientation {
    if raw.None? || raw.value == "" then RuleAsRow
    else
      var word := Joined(Lower(Trim(raw.value)), '-');
      if word == "rule-as-row" || word == "rule_as_row" then RuleAsRow
      else if word == "rule-as-column" || word == "rule_as_column" then RuleAsColumn
      else if word == "crosstable" || word == "cross-table" then CrossTable
      else RuleAsRow
  }

  /** How the DMN schema writes a hit policy (`tHitPolicy`). */
  function HitPolicyWord(policy: HitPolicy): string {
    match policy
    case Unique => "UNIQUE"
    case First => "FIRST"
    case Any => "ANY"
    case Collect => "COLLECT"
    case RuleOrder => "RULE ORDER"
    case OutputOrder => "OUTPUT ORDER"
    case Priority => "PRIORITY"
  }

  function AggregationWord(aggregation: Aggregation): string {
    match aggregation
    case Sum => "SUM"
    case Min => "MIN"
    case Max => "MAX"
    case Count => "COUNT"
  }

  function OrientationWord(orientation: Orientation): string {
    match orientation
    case RuleAsRow => "Rule-as-Row"
    case RuleAsColumn => "Rule-as-Column"
    case CrossTable => "CrossTable"
  }

  predicate IsCapital(c: char) {
    'A' <= c <= 'Z' || c == ' '
  }

  lemma {:induction false} UpperOfCapitals(s: string)
    requires forall i :: 0 <= i < |s| ==> IsCapital(s[i])
    ensures Upper(s) == s
  {
    if s == [] {
    } else {
      UpperOfCapitals(s[1..]);
    }
  }

  lemma {:induction false} JoinedWord(s: string, c: char)
    requires forall i :: 0 <= i < |s| ==> !IsSpace(s[i])
    ensures Joined(s, c) == s
  {
    if s == [] {
    } else {
      JoinedWord(s[1..], c);
    }
  }

  lemma JoinedStep(s: string, c: char)
    requires s != [] && !IsSpace(s[0])
    ensures Joined(s, c) == [s[0]] + Joined(s[1..], c)
  {
    hide IsSpace;
  }

  lemma JoinedGap(t: string, c: char)
    requires t != [] && !IsSpace(t[0])
    ensures Joined([' '] + t, c) == [c] + Joined(t, c)
  {
    var gap := [' '] + t;
    assert gap[1..] == t;
    assert TrimStart(gap) == TrimStart(t) == t by { hide Joined; }
  }

  lemma {:induction false} JoinedPhrase(s: string, t: string, c: char)
    requires forall i :: 0 <= i < |s| ==> !IsSpace(s[i])
    requires t != [] && !IsSpace(t[0])
    ensures Joined(s + [' '] + t, c) == s + [c] + Joined(t, c)
  {
    hide Joined, IsSpace;
    if s == [] {
      assert s + [' '] + t == [' '] + t;
      JoinedGap(t, c);
    } else {
      var phrase := s + [' '] + t;
      JoinedPhrase(s[1..], t, c);
      assert phrase[1..] == s[1..] + [' '] + t;
      JoinedStep(phrase, c);
      assert s + [c] + Joined(t, c) == [s[0]] + (s[1..] + [c] + Joined(t, c));
    }
  }

  /** A single word of capitals passes through normalisation unchanged. */
  lemma CapitalsNormal(word: string)
    requires word != [] && forall i :: 0 <= i < |word| ==> 'A' <= word[i] <= 'Z'
    ensures Upper(Trim(word)) == word && Joined(Upper(Trim(word)), '_') == word
  {
    hide IsSpace, Upper, Trim, Joined;
    LettersAreNoSpace();
    TrimTrims(word);
    UpperOfCapitals(word);
    JoinedWord(word, '_');
  }

  lemma PhraseNormal(s: string, t: string)
    requires s != [] && t != [] && (forall i :: 0 <= i < |s| ==> 'A' <= s[i] <= 'Z') && (forall i :: 0 <= i < |t| ==> 'A' <= t[i] <= 'Z')
    ensures Joined(Upper(Trim(s + [' '] + t)), '_') == s + ['_'] + t
  {
    hide IsSpace, Upper, Trim, Joined;
    LettersAreNoSpace();
    TrimTrims(s + [' '] + t);
    UpperOfCapitals(s + [' '] + t);
    JoinedPhrase(s, t, '_');
    JoinedWord(t, '_');
  }

  lemma HitPolicyReadsBack(policy: HitPolicy)
    ensures ParseHitPolicy(Some(HitPolicyWord(policy))) == policy
  {
    hide Upper, Trim, Joined;
    match policy {
      case RuleOrder =>
        PhraseNormal("RULE", "ORDER");
        assert "RULE" + [' '] + "ORDER" == "RULE ORDER" && "RULE" + ['_'] + "ORDER" == "RULE_ORDER";
      case OutputOrder =>
        PhraseNormal("OUTPUT", "ORDER");
        assert "OUTPUT" + [' '] + "ORDER" == "OUTPUT ORDER" && "OUTPUT" + ['_'] + "ORDER" == "OUTPUT_ORDER";
      case _ =>
        CapitalsNormal(HitPolicyWord(policy));
    }
  }

  lemma LettersAreNoSpace()
    ensures forall c :: 'A' <= c <= 'Z' || 'a' <= c <= 'z' || c == '-' ==> !IsSpace(c)
  {
  }

  lemma AggregationReadsBack(aggregation: Aggregation)
    ensures ParseAggregation(Some(AggregationWord(aggregation))) == Some(aggregation)
  {
    hide Upper, Trim, Joined;
    CapitalsNormal(AggregationWord(aggregation));
  }

  lemma LowerNormal(word: string)
    requires word != [] && forall i :: 0 <= i < |word| ==> 'A' <= word[i] <= 'Z' || 'a' <= word[i] <= 'z' || word[i] == '-'
    ensures Joined(Lower(Trim(word)), '-') == Lower(word)
  {
    hide IsSpace, Trim, Joined;
    LettersAreNoSpace();
    TrimTrims(word);
    JoinedWord(Lower(word), '-');
  }

  lemma OrientationReadsBack(orientation: Orientation)
    ensures ParseOrientation(Some(OrientationWord(orientation))) == orientation
  {
    hide Lower, Trim, Joined;
    var word := OrientationWord(orientation);
    LowerNormal(word);
    LowerWords();
  }

  lemma LowerWords()
    ensures Lower("Rule-as-Row") == "rule-as-row" && Lower("Rule-as-Column") == "rule-as-column" && Lower("CrossTable") == "crosstable"
  {
  }

  // ----- and nothing else is read as a word

  /** Trimmed, in capitals, every run of white space an underscore. */
  function Normalised(s: string): string {
    Joined(Upper(Trim(s)), '_')
  }

  lemma PolicyWordNormal(policy: HitPolicy)
    ensures Normalised(HitPolicyWord(policy)) == match policy
      case RuleOrder => "RULE_ORDER"
      case OutputOrder => "OUTPUT_ORDER"
      case Unique => "UNIQUE"
      case First => "FIRST"
      case Any => "ANY"
      case Collect => "COLLECT"
      case Priority => "PRIORITY"
  {
    hide Upper, Trim, Joined;
    match policy {
      case RuleOrder =>
        PhraseNormal("RULE", "ORDER");
        assert "RULE" + [' '] + "ORDER" == "RULE ORDER" && "RULE" + ['_'] + "ORDER" == "RULE_ORDER";
      case OutputOrder =>
        PhraseNormal("OUTPUT", "ORDER");
        assert "OUTPUT" + [' '] + "ORDER" == "OUTPUT ORDER" && "OUTPUT" + ['_'] + "ORDER" == "OUTPUT_ORDER";
      case _ =>
        CapitalsNormal(HitPolicyWord(policy));
    }
  }

  /**
   A text is read as a policy other than `Unique` when, normalised, it is the schema's word for
   it or that word's first letter; a missing text and every other one is read as `Unique`.
   */
  lemma HitPolicyIff(raw: Option<string>, policy: HitPolicy)
    ensures policy != Unique ==>
      (ParseHitPolicy(raw) == policy <==>
       raw.Some? && (Normalised(raw.value) == Normalised(HitPolicyWord(policy)) || Normalised(raw.value) == HitPolicyWord(policy)[..1]))
  {
    PolicyWordNormal(policy);
    FirstLetter(policy);
    NothingNormal();
    hide Upper, Trim, Joined, HitPolicyWord;
    match policy {
      case Unique =>
      case First =>
      case Any =>
      case Collect =>
      case RuleOrder =>
      case OutputOrder =>
      case Priority =>
    }
  }

  lemma FirstLetter(policy: HitPolicy)
    ensures |HitPolicyWord(policy)| > 1
    ensures HitPolicyWord(policy)[..1] == match policy
      case Unique => "U"
      case First => "F"
      case Any => "A"
      case Collect => "C"
      case RuleOrder => "R"
      case OutputOrder => "O"
      case Priority => "P"
  {
  }

  lemma NothingNormal()
    ensures Normalised("") == "" && Upper(Trim("")) == "" && Joined(Lower(Trim("")), '-') == ""
  {
  }

  lemma AggregationIff(raw: Option<string>, aggregation: Aggregation)
    ensures ParseAggregation(raw) == Some(aggregation) <==> raw.Some? && Upper(Trim(raw.value)) == AggregationWord(aggregation)
  {
    NothingNormal();
    hide Upper, Trim;
  }

  /** The letters that have an ASCII capital without being ASCII count as that. */
  lemma SpecialLetters()
    ensures ParseAggregation(Some("\U{017F}um")) == Some(Sum) && ParseAggregation(Some("m\U{0131}n")) == Some(Min)
    ensures ParseHitPolicy(Some("\U{FB01}rst")) == ParseHitPolicy(Some("fir\U{FB05}")) == ParseHitPolicy(Some("fir\U{FB06}")) == First
  {
    SpecialWord("\U{017F}um", "SUM");
    SpecialWord("m\U{0131}n", "MIN");
    SpecialWord("\U{FB01}rst", "FIRST");
    SpecialWord("fir\U{FB05}", "FIRST");
    SpecialWord("fir\U{FB06}", "FIRST");
    LettersAreNoSpace();
    JoinedWord("FIRST", '_');
  }

  lemma SpecialWord(s: string, word: string)
    requires |s| >= 2 && Trimmed(s) && Upper(s) == word
    ensures Upper(Trim(s)) == word
  {
    hide Upper, Trim;
    TrimTrims(s);
  }

  /** Columns may be joined by hyphens or underscores, a cross table may be written in one word or two; the rest is rows. */
  lemma OrientationIff(raw: Option<string>)
    ensures var word := if raw == None then "" else Joined(Lower(Trim(raw.value)), '-');
      && (ParseOrientation(raw) == RuleAsColumn <==> word == Lower(OrientationWord(RuleAsColumn)) || word == "rule_as_column")
      && (ParseOrientation(raw) == CrossTable <==> word == Lower(OrientationWord(CrossTable)) || word == "cross-table")
  {
    NothingNormal();
    LowerWords();
    hide Lower, Trim, Joined;
  }
}
