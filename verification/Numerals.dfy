/** Decimal numerals: how the scripts print whole numbers and how `Number.parseFloat` reads them back. */
module Numerals {
  import opened Collections
  import opened Xml

  predicate IsDigit(c: char) {
    '0' <= c <= '9'
  }

  function DigitChar(d: nat): (c: char)
    requires d < 10
    ensures IsDigit(c)
  {
    '0' + d as char
  }

  function Decimal(n: nat): string {
    if n < 10 then [DigitChar(n)] else Decimal(n / 10) + [DigitChar(n % 10)]
  }

  predicate AllDigits(s: string) {
    forall c :: c in s ==> IsDigit(c)
  }

  function DigitsValue(s: string): nat
    requires AllDigits(s)
  {
    if s == [] then 0
    else
      assert s[|s| - 1] in s;
      DigitsValue(s[..|s| - 1]) * 10 + (s[|s| - 1] - '0') as nat
  }

  function LeadingDigits(s: string): (d: string)
    ensures AllDigits(d) && d <= s
  {
    if s != [] && IsDigit(s[0]) then [s[0]] + LeadingDigits(s[1..]) else []
  }

  function Power10(n: nat): (p: nat)
    ensures p > 0
  {
    if n == 0 then 1 else 10 * Power10(n - 1)
  }

  /** The longest leading `digits[.digits]`; `None` is NaN. */
  function UnsignedValue(s: string): Option<real> {
    var whole := LeadingDigits(s);
    var rest := s[|whole|..];
    var fraction := if rest != [] && rest[0] == '.' then LeadingDigits(rest[1..]) else [];
    if whole == [] && fraction == [] then None
    else Some(DigitsValue(whole) as real + DigitsValue(fraction) as real / Power10(|fraction|) as real)
  }

  function ParseFloat(raw: string): Option<real> {
    var s := TrimStart(raw);
    if s != [] && s[0] == '-' then
      match UnsignedValue(s[1..]) case Some(v) => Some(-v) case None => None
    else if s != [] && s[0] == '+' then UnsignedValue(s[1..])
    else UnsignedValue(s)
  }

  lemma {:induction false} DecimalDigits(n: nat)
    ensures Decimal(n) != [] && AllDigits(Decimal(n)) && DigitsValue(Decimal(n)) == n
  {
    if n >= 10 {
      DecimalDigits(n / 10);
      var s := Decimal(n);
      assert s[..|s| - 1] == Decimal(n / 10);
    }
  }

  lemma {:induction false} LeadingDigitsAll(s: string)
    requires AllDigits(s)
    ensures LeadingDigits(s) == s
  {
    if s == [] {
    } else {
      assert s[0] in s;
      LeadingDigitsAll(s[1..]);
    }
  }

  lemma WholeNumber(s: string)
    requires s != [] && AllDigits(s)
    ensures UnsignedValue(s) == Some(DigitsValue(s) as real)
  {
    LeadingDigitsAll(s);
    hide LeadingDigits, DigitsValue;
    assert s[|s|..] == [];
    assert DigitsValue([]) == 0 by { NoDigits(); }
  }

  lemma NoDigits()
    ensures DigitsValue([]) == 0
  {
  }

  /** What is printed as a decimal numeral is read back as the same number. */
  lemma DecimalReadsBack(n: nat)
    ensures Decimal(n) != ""
    ensures ParseFloat(Decimal(n)) == Some(n as real)
  {
    DecimalDigits(n);
    var s := Decimal(n);
    assert IsDigit(s[0]) by { assert s[0] in s; }
    WholeNumber(s);
    hide DigitsValue, UnsignedValue, Decimal;
    assert TrimStart(s) == s;
  }

  lemma DecimalInjective(m: nat, n: nat)
    requires Decimal(m) == Decimal(n)
    ensures m == n
  {
    DecimalDigits(m);
    DecimalDigits(n);
  }

  // ----- signs, fractions, and what is no number

  function TenTo(k: nat): (p: nat)
    ensures p > 0
  {
    if k == 0 then 1 else TenTo(k - 1) * 10
  }

  lemma {:induction false} PowersAgree(k: nat)
    ensures Power10(k) == TenTo(k)
  {
    if k == 0 {
    } else {
      PowersAgree(k - 1);
    }
  }

  lemma {:induction false} LeadingDigitsStop(digits: string, tail: string)
    requires AllDigits(digits) && (tail == [] || !IsDigit(tail[0]))
    ensures LeadingDigits(digits + tail) == digits
  {
    if digits == [] {
      assert digits + tail == tail;
    } else {
      assert digits[0] in digits && (digits + tail)[1..] == digits[1..] + tail;
      LeadingDigitsStop(digits[1..], tail);
    }
  }

  /** What whole and fractional digits say. */
  function Value(n: nat, fraction: string): real
    requires AllDigits(fraction)
  {
    n as real + DigitsValue(fraction) as real / TenTo(|fraction|) as real
  }

  /**
   How a text begins as a number: white space, a sign, digits, a point and more digits, each
   as long as it can be and all of them optional, and then whatever does not go on with it.
   */
  ghost predicate BeginsNumber(s: string, blank: string, sign: string, whole: string, point: string, fraction: string, tail: string) {
    && s == blank + (sign + (whole + (point + (fraction + tail))))
    && (forall c :: c in blank ==> IsSpace(c)) && sign in ["", "-", "+"]
    && AllDigits(whole) && EndsNumber(point, fraction, tail)
    && (sign == "" && whole == "" && point == "" && tail != "" ==> !IsSpace(tail[0]) && tail[0] != '-' && tail[0] != '+')
  }

  ghost predicate EndsNumber(point: string, fraction: string, tail: string) {
    && AllDigits(fraction) && point in ["", "."] && (point == "" ==> fraction == "")
    && (tail != "" ==> !IsDigit(tail[0]) && (point == "" ==> tail[0] != '.'))
  }

  lemma FractionReads(point: string, fraction: string, tail: string)
    requires EndsNumber(point, fraction, tail)
    ensures var rest := point + (fraction + tail);
      (rest == "" || !IsDigit(rest[0])) && fraction == if rest != "" && rest[0] == '.' then LeadingDigits(rest[1..]) else ""
  {
    var rest := point + (fraction + tail);
    assert !IsDigit('.');
    hide IsDigit;
    if point == "" {
      assert rest == tail;
    } else {
      assert rest[0] == '.' && rest[1..] == fraction + tail;
      LeadingDigitsStop(fraction, tail);
    }
  }

  /** Digits, with or without a fraction, before anything that does not go on with them. */
  lemma UnsignedReads(whole: string, point: string, fraction: string, tail: string)
    requires AllDigits(whole) && EndsNumber(point, fraction, tail)
    ensures UnsignedValue(whole + (point + (fraction + tail))) ==
      if whole == "" && fraction == "" then None else Some(Value(DigitsValue(whole), fraction))
  {
    hide *;
    var rest := point + (fraction + tail);
    FractionReads(point, fraction, tail);
    LeadingDigitsStop(whole, rest);
    assert (whole + rest)[|whole|..] == rest;
    ValueOf(whole + rest, whole, fraction);
  }

  lemma ValueOf(s: string, whole: string, fraction: string)
    requires LeadingDigits(s) == whole
    requires fraction == if s[|whole|..] != "" && s[|whole|..][0] == '.' then LeadingDigits(s[|whole|..][1..]) else ""
    ensures UnsignedValue(s) == if whole == "" && fraction == "" then None else Some(Value(DigitsValue(whole), fraction))
  {
    hide LeadingDigits, DigitsValue, Power10, TenTo, IsDigit;
    PowersAgree(|fraction|);
  }

  lemma SignReads(sign: string, number: string)
    requires sign in ["", "-", "+"] && (sign == "" && number != "" ==> !IsSpace(number[0]) && number[0] != '-' && number[0] != '+')
    ensures ParseFloat(sign + number) ==
      if sign == "-" then match UnsignedValue(number) case Some(v) => Some(-v) case None => None else UnsignedValue(number)
  {
    hide UnsignedValue;
    var signed := sign + number;
    if sign == "" {
      assert signed == number;
    } else {
      assert signed[0] == sign[0] && signed[1..] == number;
    }
    assert TrimStart(signed) == signed;
  }

  lemma BlankReads(blank: string, s: string)
    requires forall c :: c in blank ==> IsSpace(c)
    ensures ParseFloat(blank + s) == ParseFloat(s)
  {
    hide UnsignedValue, TrimStart;
    TrimBlank(blank, s);
  }

  lemma FirstOfNumber(whole: string, point: string, fraction: string, tail: string)
    requires AllDigits(whole) && EndsNumber(point, fraction, tail)
    ensures var number := whole + (point + (fraction + tail));
      number == "" || (whole == "" && point == "" && tail != "" && number[0] == tail[0]) || IsDigit(number[0]) || number[0] == '.'
  {
    hide IsDigit;
    if whole != "" {
      assert whole[0] in whole;
    } else if point == "" {
      assert whole + (point + (fraction + tail)) == tail;
    }
  }

  lemma NumberIsNoSpace(c: char)
    requires IsDigit(c) || c == '.'
    ensures !IsSpace(c) && c != '-' && c != '+'
  {
  }

  /** A number is read as its digits say, past white space before it and up to what does not go on with it; without digits there is none. */
  lemma NumberReads(s: string, blank: string, sign: string, whole: string, point: string, fraction: string, tail: string)
    requires BeginsNumber(s, blank, sign, whole, point, fraction, tail)
    ensures ParseFloat(s) ==
      if whole == "" && fraction == "" then None
      else Some(if sign == "-" then -Value(DigitsValue(whole), fraction) else Value(DigitsValue(whole), fraction))
  {
    hide ParseFloat, UnsignedValue, EndsNumber, Value, DigitsValue, IsSpace, IsDigit;
    var number := whole + (point + (fraction + tail));
    UnsignedReads(whole, point, fraction, tail);
    FirstOfNumber(whole, point, fraction, tail);
    if number != "" && (IsDigit(number[0]) || number[0] == '.') { NumberIsNoSpace(number[0]); }
    SignReads(sign, number);
    BlankReads(blank, sign + number);
  }

  /** Every text begins as a number in this sense, if only with none of the parts. */
  lemma EveryTextBegins(s: string)
    returns (blank: string, sign: string, whole: string, point: string, fraction: string, tail: string)
    ensures BeginsNumber(s, blank, sign, whole, point, fraction, tail)
  {
    hide IsSpace, IsDigit;
    var n := TrimStartAt(s);
    blank := s[..n];
    var rest := s[n..];
    sign := if rest != "" && rest[0] == '-' then "-" else if rest != "" && rest[0] == '+' then "+" else "";
    var number := rest[|sign|..];
    whole, rest := SplitDigits(number);
    point := if rest != "" && rest[0] == '.' then "." else "";
    fraction, tail := "", rest;
    if point == "." {
      fraction, tail := SplitDigits(rest[1..]);
      assert rest == point + (fraction + tail);
    } else {
      assert rest == point + (fraction + tail);
    }
    assert s[n..] == sign + number && s == blank + s[n..];
    assert EndsNumber(point, fraction, tail);
    if sign == "" && whole == "" && point == "" && tail != "" { assert tail[0] == s[n..][0]; }
  }

  lemma {:induction false} SplitDigits(s: string) returns (digits: string, rest: string)
    ensures s == digits + rest && AllDigits(digits) && (rest != "" ==> !IsDigit(rest[0]))
  {
    if s != "" && IsDigit(s[0]) {
      digits, rest := SplitDigits(s[1..]);
      digits := [s[0]] + digits;
    } else {
      digits, rest := "", s;
    }
  }
}
