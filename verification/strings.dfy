/** The few Go `strings` functions the core relies on, over `seq<char>`. */
module Strings {

  /** Number of occurrences of `c` in `s`. */
  function Count(s: string, c: char): nat {
    if |s| == 0 then 0 else (if s[0] == c then 1 else 0) + Count(s[1..], c)
  }

  /** Go `strings.Split(s, sep)` for a one-character separator: the pieces
      between separators, in order; `""` splits to `[""]`. */
  function Split(s: string, sep: char): (pieces: seq<string>)
    ensures |pieces| >= 1
    decreases |s|
  {
    if |s| == 0 then [""]
    else
      var rest := Split(s[1..], sep);
      if s[0] == sep then [""] + rest
      else [[s[0]] + rest[0]] + rest[1..]
  }

  /** Go `strings.Join(pieces, sep)`. */
  function Join(pieces: seq<string>, sep: char): string {
    if |pieces| == 0 then ""
    else if |pieces| == 1 then pieces[0]
    else pieces[0] + [sep] + Join(pieces[1..], sep)
  }

  /** Splitting yields one more piece than there are separators, and no piece
      contains the separator. */
  lemma {:induction false} SplitShape(s: string, sep: char)
    ensures |Split(s, sep)| == Count(s, sep) + 1
    ensures forall i :: 0 <= i < |Split(s, sep)| ==> sep !in Split(s, sep)[i]
    decreases |s|
  {
    if |s| > 0 {
      SplitShape(s[1..], sep);
    }
  }

  /** Joining the pieces back with the separator recovers the input. */
  lemma {:induction false} JoinSplit(s: string, sep: char)
    ensures Join(Split(s, sep), sep) == s
    decreases |s|
  {
    if |s| > 0 {
      var rest := Split(s[1..], sep);
      JoinSplit(s[1..], sep);
      if s[0] == sep {
        assert [""] + rest == [""] + rest;
        JoinCons(rest, sep);
        assert Join([""] + rest, sep) == [sep] + Join(rest, sep);
        assert s == [s[0]] + s[1..];
      } else {
        var p := [[s[0]] + rest[0]] + rest[1..];
        if |rest| == 1 {
          assert rest[0] == s[1..];
          assert s == [s[0]] + s[1..];
          assert p == [s];
        } else {
          assert p[1..] == rest[1..];
          assert Join(rest, sep) == rest[0] + [sep] + Join(rest[1..], sep);
          assert Join(p, sep) == ([s[0]] + rest[0]) + [sep] + Join(rest[1..], sep);
          assert s == [s[0]] + s[1..];
        }
      }
    }
  }

  lemma JoinCons(rest: seq<string>, sep: char)
    requires |rest| >= 1
    ensures Join([""] + rest, sep) == [sep] + Join(rest, sep)
  {
    assert ([""] + rest)[1..] == rest;
  }

  /** White space as Go's `unicode.IsSpace` reports it. */
  predicate IsSpace(c: char) {
    c == ' ' || c == '\t' || c == '\n' || c == '\r' || c == '\U{000B}' || c == '\U{000C}'
    || c == '\U{0085}' || c == '\U{00A0}' || c == '\U{1680}'
    || ('\U{2000}' <= c <= '\U{200A}')
    || c == '\U{2028}' || c == '\U{2029}' || c == '\U{202F}' || c == '\U{205F}' || c == '\U{3000}'
  }

  /** Go `strings.Fields(s)`: the maximal runs of non-space characters, in order. */
  function Fields(s: string): (words: seq<string>)
    decreases |s|
  {
    if |s| == 0 then []
    else if IsSpace(s[0]) then Fields(s[1..])
    else
      var rest := Fields(s[1..]);
      if |rest| > 0 && !IsSpace(s[1]) then [[s[0]] + rest[0]] + rest[1..]
      else [[s[0]]] + rest
  }

  predicate NoSpace(w: string) {
    forall i :: 0 <= i < |w| ==> !IsSpace(w[i])
  }

  /** The characters of `s` that are not white space, in order. */
  function Squeeze(s: string): string {
    if |s| == 0 then "" else (if IsSpace(s[0]) then "" else [s[0]]) + Squeeze(s[1..])
  }

  function Concat(words: seq<string>): string {
    if |words| == 0 then "" else words[0] + Concat(words[1..])
  }

  /** Every field is a non-empty run without white space. */
  lemma {:induction false} FieldsAreWords(s: string)
    ensures forall i :: 0 <= i < |Fields(s)| ==> |Fields(s)[i]| > 0 && NoSpace(Fields(s)[i])
    decreases |s|
  {
    if |s| > 0 {
      FieldsAreWords(s[1..]);
      var rest := Fields(s[1..]);
      if !IsSpace(s[0]) && |rest| > 0 && !IsSpace(s[1]) {
        var w := [s[0]] + rest[0];
        assert NoSpace(w) by {
          forall i | 0 <= i < |w| ensures !IsSpace(w[i]) {
            if i > 0 { assert w[i] == rest[0][i - 1]; }
          }
        }
      }
    }
  }

  /** The fields hold exactly the non-space characters of the input, in order. */
  lemma {:induction false} FieldsConcat(s: string)
    ensures Concat(Fields(s)) == Squeeze(s)
    decreases |s|
  {
    if |s| > 0 {
      FieldsConcat(s[1..]);
      var rest := Fields(s[1..]);
      if !IsSpace(s[0]) && |rest| > 0 && !IsSpace(s[1]) {
        var w := [s[0]] + rest[0];
        var f := [w] + rest[1..];
        assert f[1..] == rest[1..];
        assert Concat(rest) == rest[0] + Concat(rest[1..]);
        assert Concat(f) == w + Concat(rest[1..]);
      } else if !IsSpace(s[0]) {
        var f := [[s[0]]] + rest;
        assert f[1..] == rest;
      }
    }
  }

  /** A string has at least one field iff it has a non-space character. */
  lemma FieldsEmptyIff(s: string)
    ensures |Fields(s)| > 0 <==> Squeeze(s) != ""
  {
    FieldsAreWords(s);
    FieldsConcat(s);
    var f := Fields(s);
    if |f| > 0 {
      assert Concat(f) == f[0] + Concat(f[1..]);
    }
  }

  /** Go `strings.TrimSpace(s)`: drops leading and trailing white space. */
  function TrimSpace(s: string): (t: string)
    ensures |t| <= |s|
  {
    TrimRight(TrimLeft(s))
  }

  function TrimLeft(s: string): (t: string)
    ensures |t| <= |s|
    ensures |t| > 0 ==> !IsSpace(t[0])
    ensures Squeeze(t) == Squeeze(s)
    ensures Fields(t) == Fields(s)
  {
    if |s| > 0 && IsSpace(s[0]) then TrimLeft(s[1..]) else s
  }

  function TrimRight(s: string): (t: string)
    ensures |t| <= |s|
    ensures |t| > 0 ==> !IsSpace(t[|t| - 1])
    decreases |s|
  {
    if |s| > 0 && IsSpace(s[|s| - 1]) then TrimRight(s[..|s| - 1]) else s
  }

  lemma {:induction false} SqueezeAppend(a: string, b: string)
    ensures Squeeze(a + b) == Squeeze(a) + Squeeze(b)
  {
    if |a| > 0 {
      assert (a + b)[1..] == a[1..] + b;
      SqueezeAppend(a[1..], b);
    } else {
      assert a + b == b;
    }
  }

  /** Trimming removes white space only: the non-space characters stay. */
  lemma {:induction false} TrimSpaceSqueeze(s: string)
    ensures Squeeze(TrimSpace(s)) == Squeeze(s)
  {
    TrimRightSqueeze(TrimLeft(s));
  }

  lemma {:induction false} TrimRightSqueeze(s: string)
    ensures Squeeze(TrimRight(s)) == Squeeze(s)
    decreases |s|
  {
    if |s| > 0 && IsSpace(s[|s| - 1]) {
      var init := s[..|s| - 1];
      TrimRightSqueeze(init);
      assert s == init + [s[|s| - 1]];
      SqueezeAppend(init, [s[|s| - 1]]);
      assert Squeeze([s[|s| - 1]]) == "";
    }
  }

  /** A word without white space is its own trim. */
  lemma TrimSpaceOfWord(w: string)
    requires NoSpace(w)
    ensures TrimSpace(w) == w
  {
  }

  /** Go `unicode.ToLower` restricted to ASCII letters. */
  function LowerChar(c: char): char {
    if 'A' <= c <= 'Z' then (c as int + 32) as char else c
  }

  /** `strings.ToLower` (ASCII letters only, see README). */
  function ToLower(s: string): (t: string)
    ensures |t| == |s|
    ensures forall i :: 0 <= i < |s| ==> t[i] == LowerChar(s[i])
  {
    seq(|s|, i requires 0 <= i < |s| => LowerChar(s[i]))
  }

  /** Lower-casing twice is lower-casing once. */
  lemma ToLowerIdempotent(s: string)
    ensures ToLower(ToLower(s)) == ToLower(s)
  {
  }

  /** The suffix of `s` after its first `n` characters: Go's `s[n:]`, which
      panics when `s` is shorter than `n`. */
  function DropPrefix(s: string, n: nat): (r: Option<string>)
    ensures r.Some? <==> n <= |s|
    ensures r.Some? ==> s == s[..n] + r.value
  {
    if n <= |s| then Some(s[n..]) else None
  }

  /** Go's `s[len(s)-n:]` on ASCII text: the last `n` characters, panicking
      when `s` is shorter. Go counts bytes, so on multi-byte text the cut differs. */
  function LastN(s: string, n: nat): (r: Option<string>)
    ensures r.Some? <==> n <= |s|
    ensures r.Some? ==> |r.value| == n && s == s[..|s| - n] + r.value
  {
    if n <= |s| then Some(s[|s| - n..]) else None
  }

  import opened Wrappers
}
