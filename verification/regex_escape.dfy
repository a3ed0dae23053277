/** `HandleValueForRegex` in models/commons/utils.go: Go's `regexp.QuoteMeta`,
    which puts a backslash before every regular-expression metacharacter. */
module RegexEscape {

  /** The characters `regexp.QuoteMeta` escapes: \ . + * ? ( ) | [ ] { } ^ $ */
  predicate IsMeta(c: char) {
    c == '\\' || c == '.' || c == '+' || c == '*' || c == '?' || c == '(' || c == ')'
    || c == '|' || c == '[' || c == ']' || c == '{' || c == '}' || c == '^' || c == '$'
  }

  function CountMeta(s: string): nat {
    if |s| == 0 then 0 else (if IsMeta(s[0]) then 1 else 0) + CountMeta(s[1..])
  }

  predicate NoMeta(s: string) {
    forall i :: 0 <= i < |s| ==> !IsMeta(s[i])
  }

  /** `HandleValueForRegex(value)`. */
  function QuoteMeta(s: string): string {
    if |s| == 0 then ""
    else (if IsMeta(s[0]) then ['\\', s[0]] else [s[0]]) + QuoteMeta(s[1..])
  }

  /** A pattern made only of literal tokens: a non-metacharacter, or a
      backslash followed by a metacharacter. Such a pattern matches its text
      literally. */
  predicate Literal(r: string)
    decreases |r|
  {
    if |r| == 0 then true
    else if !IsMeta(r[0]) then Literal(r[1..])
    else r[0] == '\\' && |r| >= 2 && IsMeta(r[1]) && Literal(r[2..])
  }

  /** Reads a literal pattern back as the text it matches: drops the backslash
      in front of each escaped character. */
  function Unquote(r: string): string
    decreases |r|
  {
    if |r| == 0 then ""
    else if r[0] == '\\' && |r| >= 2 then [r[1]] + Unquote(r[2..])
    else [r[0]] + Unquote(r[1..])
  }

  /** The escaped value grows by exactly one character per metacharacter. */
  lemma {:induction false} QuoteMetaLength(s: string)
    ensures |QuoteMeta(s)| == |s| + CountMeta(s)
  {
    if |s| > 0 {
      QuoteMetaLength(s[1..]);
    }
  }

  /** A value without metacharacters is left unchanged. */
  lemma {:induction false} QuoteMetaIdentity(s: string)
    requires NoMeta(s)
    ensures QuoteMeta(s) == s
  {
    if |s| > 0 {
      QuoteMetaIdentity(s[1..]);
      assert s == [s[0]] + s[1..];
    }
  }

  /** Conversely, a value the escaping leaves unchanged has no metacharacter. */
  lemma QuoteMetaFixedPoint(s: string)
    requires QuoteMeta(s) == s
    ensures NoMeta(s)
  {
    QuoteMetaLength(s);
    if !NoMeta(s) {
      var i :| 0 <= i < |s| && IsMeta(s[i]);
      CountMetaPositive(s, i);
    }
  }

  lemma {:induction false} CountMetaPositive(s: string, i: nat)
    requires i < |s| && IsMeta(s[i])
    ensures CountMeta(s) > 0
  {
    if i > 0 {
      CountMetaPositive(s[1..], i - 1);
    }
  }

  /** Every escaped value is a literal pattern: no metacharacter is left bare. */
  lemma {:induction false} QuoteMetaLiteral(s: string)
    ensures Literal(QuoteMeta(s))
  {
    if |s| > 0 {
      QuoteMetaLiteral(s[1..]);
      var tail := QuoteMeta(s[1..]);
      if IsMeta(s[0]) {
        assert (['\\', s[0]] + tail)[2..] == tail;
      } else {
        assert ([s[0]] + tail)[1..] == tail;
      }
    }
  }

  /** Removing one backslash before each escaped character recovers the input. */
  lemma {:induction false} UnquoteQuoteMeta(s: string)
    ensures Unquote(QuoteMeta(s)) == s
  {
    if |s| > 0 {
      UnquoteQuoteMeta(s[1..]);
      var tail := QuoteMeta(s[1..]);
      if IsMeta(s[0]) {
        assert (['\\', s[0]] + tail)[2..] == tail;
      } else {
        assert ([s[0]] + tail)[1..] == tail;
      }
      assert s == [s[0]] + s[1..];
    }
  }

  /** Every literal pattern is the escaping of the text it matches, so escaping
      is a bijection between strings and literal patterns. */
  lemma {:induction false} QuoteMetaUnquote(r: string)
    requires Literal(r)
    ensures QuoteMeta(Unquote(r)) == r
    decreases |r|
  {
    if |r| > 0 {
      if !IsMeta(r[0]) {
        QuoteMetaUnquote(r[1..]);
        assert r == [r[0]] + r[1..];
      } else {
        QuoteMetaUnquote(r[2..]);
        var u := Unquote(r[2..]);
        assert ([r[1]] + u)[1..] == u;
        assert r == ['\\', r[1]] + r[2..];
      }
    }
  }

  /** Escaping never maps two different values to the same pattern. */
  lemma QuoteMetaInjective(a: string, b: string)
    requires QuoteMeta(a) == QuoteMeta(b)
    ensures a == b
  {
    UnquoteQuoteMeta(a);
    UnquoteQuoteMeta(b);
  }
}
