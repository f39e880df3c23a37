/**
 The two key-case rewrites: `toSnakeCase` (packages/js/client/src/graphql/query-builder.ts)
 on the way out, and the rewrite in `camelizeKeys` (packages/js/client/src/graphql/graphql-client.ts)
 on the way back. Each undoes the other exactly on the names stated here.
 */
module KeyCase {
  predicate IsUpper(c: char) {
    'A' <= c <= 'Z'
  }

  predicate IsLower(c: char) {
    'a' <= c <= 'z'
  }

  function ToLower(c: char): char
    requires IsUpper(c)
  {
    (c as int + 32) as char
  }

  function ToUpper(c: char): char
    requires IsLower(c)
  {
    (c as int - 32) as char
  }

  /** Every capital becomes an underscore and its small letter. */
  function ToSnake(s: string): string {
    if s == [] then []
    else (if IsUpper(s[0]) then ['_', ToLower(s[0])] else [s[0]]) + ToSnake(s[1..])
  }

  /** Every underscore before a small letter goes, and the letter becomes a capital; matches do not overlap. */
  function ToCamel(s: string): string
    decreases |s|
  {
    if s == [] then []
    else if |s| >= 2 && s[0] == '_' && IsLower(s[1]) then [ToUpper(s[1])] + ToCamel(s[2..])
    else [s[0]] + ToCamel(s[1..])
  }

  predicate PairAt(s: string, i: nat) {
    i + 1 < |s| && s[i] == '_' && IsLower(s[i + 1])
  }

  /** No underscore stands before a small letter. */
  ghost predicate NoPair(s: string) {
    forall i :: 0 <= i < |s| ==> !PairAt(s, i)
  }

  ghost predicate NoUpper(s: string) {
    forall i :: 0 <= i < |s| ==> !IsUpper(s[i])
  }

  lemma NoPairRest(s: string)
    requires s != []
    ensures NoPair(s) <==> !PairAt(s, 0) && NoPair(s[1..])
  {
    forall i: nat
      ensures PairAt(s[1..], i) <==> PairAt(s, i + 1)
    {
    }
    if PairAt(s, 0) || !NoPair(s[1..]) {
      assert !NoPair(s);
    } else {
      forall i: nat | i < |s| ensures !PairAt(s, i) {
        if i > 0 { assert !PairAt(s[1..], i - 1); }
      }
    }
  }

  lemma {:induction false} SnakeHead(s: string)
    ensures ToSnake(s) == [] <==> s == []
    ensures s != [] ==> (IsLower(ToSnake(s)[0]) <==> IsLower(s[0])) && (IsLower(s[0]) ==> ToSnake(s) == [s[0]] + ToSnake(s[1..]))
  {
  }

  /** Out and back: a pair that was in the name all along is taken for one the way out made, and costs a character. */
  lemma {:induction false} CamelOfSnake(s: string)
    ensures |ToCamel(ToSnake(s))| <= |s|
    ensures |ToCamel(ToSnake(s))| == |s| ==> NoPair(s)
    ensures NoPair(s) ==> ToCamel(ToSnake(s)) == s
    decreases |s|
  {
    if s == [] {
    } else {
      var rest := s[1..];
      NoPairRest(s);
      CamelOfSnake(rest);
      SnakeHead(rest);
      var snake := ToSnake(s);
      if IsUpper(s[0]) {
        assert snake == ['_', ToLower(s[0])] + ToSnake(rest);
        assert snake[2..] == ToSnake(rest);
      } else if PairAt(s, 0) {
        assert ToSnake(rest) == [rest[0]] + ToSnake(rest[1..]);
        assert snake == ['_', rest[0]] + ToSnake(rest[1..]);
        assert snake[2..] == ToSnake(rest[1..]);
        CamelOfSnake(rest[1..]);
      } else {
        assert snake[1..] == ToSnake(rest);
      }
    }
  }

  /** Camel-casing undoes snake-casing exactly on the names without an underscore before a small letter. */
  lemma CamelUndoesSnake(s: string)
    ensures ToCamel(ToSnake(s)) == s <==> NoPair(s)
  {
    CamelOfSnake(s);
  }

  lemma {:induction false} SnakeHasNoUpper(s: string)
    ensures NoUpper(ToSnake(s))
  {
    if s == [] {
    } else {
      SnakeHasNoUpper(s[1..]);
    }
  }

  lemma {:induction false} SnakeOfCamel(t: string)
    requires NoUpper(t)
    ensures ToSnake(ToCamel(t)) == t
    decreases |t|
  {
    if t == [] {
    } else {
      if PairAt(t, 0) {
        SnakeOfCamel(t[2..]);
        assert ToCamel(t)[1..] == ToCamel(t[2..]);
        assert t == ['_', t[1]] + t[2..];
      } else {
        SnakeOfCamel(t[1..]);
        assert ToCamel(t)[1..] == ToCamel(t[1..]);
      }
    }
  }

  /** Snake-casing undoes camel-casing exactly on the names without a capital. */
  lemma SnakeUndoesCamel(t: string)
    ensures ToSnake(ToCamel(t)) == t <==> NoUpper(t)
  {
    SnakeHasNoUpper(ToCamel(t));
    if NoUpper(t) { SnakeOfCamel(t); }
  }

  /** So no two names without a capital collide. */
  lemma CamelInjective(s: string, t: string)
    requires NoUpper(s) && NoUpper(t) && ToCamel(s) == ToCamel(t)
    ensures s == t
  {
    SnakeUndoesCamel(s);
    SnakeUndoesCamel(t);
  }
}
