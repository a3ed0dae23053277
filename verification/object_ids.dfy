/** MongoDB object ids as `primitive.ObjectIDFromHex` and `ObjectID.Hex()`
    see them: twelve bytes, written as 24 lower-case hexadecimal digits. */
module ObjectIds {
  import opened Wrappers
  import Strings

  predicate IsHexChar(c: char) {
    ('0' <= c <= '9') || ('a' <= c <= 'f') || ('A' <= c <= 'F')
  }

  predicate IsLowerHexChar(c: char) {
    ('0' <= c <= '9') || ('a' <= c <= 'f')
  }

  /** What `ObjectIDFromHex` accepts: exactly 24 hexadecimal digits of either case. */
  predicate IsHex(s: string) {
    |s| == 24 && forall i :: 0 <= i < |s| ==> IsHexChar(s[i])
  }

  predicate IsCanonical(s: string) {
    |s| == 24 && forall i :: 0 <= i < |s| ==> IsLowerHexChar(s[i])
  }

  const ZeroHex: string := "000000000000000000000000"

  /** An object id, identified with its `Hex()` text. */
  type ObjectId = s: string | IsCanonical(s) witness ZeroHex

  const Zero: ObjectId := ZeroHex

  /** `ObjectID.IsZero()`. */
  predicate IsZero(id: ObjectId) {
    id == Zero
  }

  /** `primitive.ObjectIDFromHex(s)`: `None` is the invalid-hex error. */
  function FromHex(s: string): (r: Option<ObjectId>)
    ensures r.Some? <==> IsHex(s)
    ensures r.Some? ==> r.value == Strings.ToLower(s)
  {
    if IsHex(s) then
      var id := Strings.ToLower(s);
      assert IsCanonical(id) by {
        forall i | 0 <= i < |id| ensures IsLowerHexChar(id[i]) {
          assert IsHexChar(s[i]);
        }
      }
      Some(id)
    else None
  }

  /** `ObjectIDFromHex(id.Hex())` gives the id back. */
  lemma FromHexOfHex(id: ObjectId)
    ensures FromHex(id) == Some(id)
  {
    assert IsHex(id) by {
      forall i | 0 <= i < |id| ensures IsHexChar(id[i]) {
        assert IsLowerHexChar(id[i]);
      }
    }
    assert Strings.ToLower(id) == id;
  }

  // ---- the errors of ObjectIDFromHex -------------------------------------------

  /** `primitive.ErrInvalidHex`, the answer for a text that is not 24 bytes long. */
  const ErrInvalidHex: string := "the provided hex string is not a valid ObjectID"

  /** The number of bytes `c` takes in UTF-8. */
  function Utf8Width(c: char): nat {
    if c as int < 0x80 then 1 else if c as int < 0x800 then 2 else if c as int < 0x1_0000 then 3 else 4
  }

  /** Go's `len(s)`: the UTF-8 byte length. */
  function Utf8Length(s: string): nat {
    if |s| == 0 then 0 else Utf8Width(s[0]) + Utf8Length(s[1..])
  }

  /** Every character takes at least one byte, and a text of hexadecimal
      digits takes exactly one byte per character. */
  lemma {:induction false} Utf8LengthBounds(s: string)
    ensures Utf8Length(s) >= |s|
    ensures (forall i :: 0 <= i < |s| ==> IsHexChar(s[i])) ==> Utf8Length(s) == |s|
  {
    if |s| > 0 {
      Utf8LengthBounds(s[1..]);
      assert forall i :: 1 <= i < |s| ==> s[1..][i - 1] == s[i];
    }
  }

  /** The first byte of the UTF-8 encoding of `c`. */
  function LeadByte(c: char): (b: nat)
    ensures b < 0x100
    ensures c as int < 0x80 ==> b == c as int
  {
    var n := c as int;
    if n < 0x80 then n
    else if n < 0x800 then 0xC0 + n / 0x40
    else if n < 0x1_0000 then 0xE0 + n / 0x1000
    else 0xF0 + n / 0x4_0000
  }

  function UpperHexDigit(d: nat): char
    requires d < 16
  {
    if d < 10 then ('0' as int + d) as char else ('A' as int + (d - 10)) as char
  }

  /** `strconv.IsPrint` on the runes below 256: ASCII space to tilde, and
      Latin-1 from U+00A1 except the soft hyphen U+00AD. */
  predicate IsPrintLatin1(b: nat) {
    (0x20 <= b <= 0x7E) || (0xA1 <= b <= 0xFF && b != 0xAD)
  }

  /** `hex.InvalidByteError(b).Error()`: the byte as a rune in `%#U` form,
      `U+` and four upper-case hex digits, then the quoted rune when printable. */
  function InvalidByte(b: nat): string
    requires b < 0x100
  {
    "encoding/hex: invalid byte: U+00" + [UpperHexDigit(b / 16), UpperHexDigit(b % 16)]
    + (if IsPrintLatin1(b) then " '" + [b as char] + "'" else "")
  }

  /** The position of the first character that is not a hexadecimal digit. */
  function FirstNonHex(s: string): (i: nat)
    requires exists k :: 0 <= k < |s| && !IsHexChar(s[k])
    ensures i < |s| && !IsHexChar(s[i]) && forall j :: 0 <= j < i ==> IsHexChar(s[j])
  {
    if !IsHexChar(s[0]) then 0
    else
      assert exists k :: 0 <= k < |s[1..]| && !IsHexChar(s[1..][k]) by {
        var k :| 0 <= k < |s| && !IsHexChar(s[k]);
        assert s[1..][k - 1] == s[k];
      }
      1 + FirstNonHex(s[1..])
  }

  /** `primitive.ObjectIDFromHex(s)` with the error it returns: `ErrInvalidHex`
      unless `s` is 24 bytes long, otherwise `hex.Decode`'s error for the
      first byte that is not a hexadecimal digit. Since hexadecimal digits are
      ASCII, that byte is the first byte of the first non-hex character. */
  function ObjectIdFromHex(s: string): (r: Result<ObjectId, string>)
    ensures r.Ok? <==> IsHex(s)
    ensures r.Ok? ==> FromHex(s) == Some(r.value)
    ensures Utf8Length(s) != 24 ==> r == Err(ErrInvalidHex)
    ensures Utf8Length(s) == 24 ==> forall i :: 0 <= i < |s| && !IsHexChar(s[i]) && (forall j :: 0 <= j < i ==> IsHexChar(s[j])) ==>
              r == Err(InvalidByte(LeadByte(s[i])))
  {
    Utf8LengthBounds(s);
    if Utf8Length(s) != 24 then Err(ErrInvalidHex)
    else if IsHex(s) then Ok(FromHex(s).value)
    else
      var i := FirstNonHex(s);
      assert forall k :: 0 <= k < |s| && !IsHexChar(s[k]) && (forall j :: 0 <= j < k ==> IsHexChar(s[j])) ==> k == i by {
        forall k | 0 <= k < |s| && !IsHexChar(s[k]) && (forall j :: 0 <= j < k ==> IsHexChar(s[j]))
          ensures k == i
        {
        }
      }
      Err(InvalidByte(LeadByte(s[i])))
  }

  /** `n` zero digits. */
  function Zeros(n: nat): (z: string)
    ensures |z| == n && forall i :: 0 <= i < n ==> z[i] == '0'
  {
    seq(n, _ => '0')
  }

  /** A single character followed by zero digits takes its own width plus one
      byte per zero. */
  lemma {:induction false} HeadThenZerosLength(c: char, n: nat)
    ensures Utf8Length([c] + Zeros(n)) == Utf8Width(c) + n
  {
    assert ([c] + Zeros(n))[1..] == Zeros(n);
    Utf8LengthBounds(Zeros(n));
  }

  /** A text that is not 24 bytes long is `ErrInvalidHex`, whatever it holds. */
  lemma ShortTextIsInvalidHex()
    ensures ObjectIdFromHex("abc") == Err(ErrInvalidHex)
  {
  }

  /** 24 bytes with a `z` in front name the `z`. */
  lemma LetterZIsInvalidByte()
    ensures ObjectIdFromHex("z" + Zeros(23)) == Err("encoding/hex: invalid byte: U+007A 'z'")
  {
    HeadThenZerosLength('z', 23);
    assert "z" + Zeros(23) == ['z'] + Zeros(23);
    var t := "z" + Zeros(23);
    assert !IsHexChar(t[0]);
    assert ObjectIdFromHex(t) == Err(InvalidByte(0x7A));
    assert UpperHexDigit(0x7A / 16) == '7' && UpperHexDigit(0x7A % 16) == 'A';
    assert (0x7A as char) == 'z';
    assert InvalidByte(0x7A) == "encoding/hex: invalid byte: U+00" + "7A" + " '" + "z" + "'"
      == "encoding/hex: invalid byte: U+007A 'z'";
  }

  /** 24 bytes starting with `é` (two bytes in UTF-8) name its first byte,
      0xC3, which `%#U` prints as the rune U+00C3. */
  lemma AccentIsItsLeadByte()
    ensures ObjectIdFromHex("\U{E9}" + Zeros(22)) == Err("encoding/hex: invalid byte: U+00C3 '\U{C3}'")
  {
    HeadThenZerosLength('\U{E9}', 22);
    assert "\U{E9}" + Zeros(22) == ['\U{E9}'] + Zeros(22);
    var t := "\U{E9}" + Zeros(22);
    assert !IsHexChar(t[0]);
    assert LeadByte(t[0]) == 0xC3;
    assert ObjectIdFromHex(t) == Err(InvalidByte(0xC3));
    assert UpperHexDigit(0xC3 / 16) == 'C' && UpperHexDigit(0xC3 % 16) == '3';
    assert (0xC3 as char) == '\U{C3}';
    assert InvalidByte(0xC3) == "encoding/hex: invalid byte: U+00" + "C3" + " '" + "\U{C3}" + "'"
      == "encoding/hex: invalid byte: U+00C3 '\U{C3}'";
  }
}
