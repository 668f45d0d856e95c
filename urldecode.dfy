/**
 * `urldecode` (src/main.rs): percent-decode a path segment, then read the
 * bytes as UTF-8, panicking when they are not.  The percent_encoding crate is
 * not part of this model; its decoder is written here from section 2.1 of
 * RFC 3986, keeping a "%" that is not followed by two hex digits as it is, and
 * UTF-8 validity follows the table in section 4 of RFC 3629 (the rule Rust's
 * `from_utf8` applies).
 */
module UrlDecoding {
  import opened Text

  /** A digit accepted by `to_digit(16)`: 0-9, A-F, a-f. */
  predicate IsHexDigit(b: byte)
  {
    0x30 <= b <= 0x39 || 0x41 <= b <= 0x46 || 0x61 <= b <= 0x66
  }

  function HexValue(b: byte): (v: nat)
    requires IsHexDigit(b)
    ensures v < 16
  {
    if b <= 0x39 then b as int - 0x30
    else if b <= 0x46 then b as int - 0x41 + 10
    else b as int - 0x61 + 10
  }

  /** The byte written by the escape "%hl". */
  function EscapedByte(h: byte, l: byte): byte
    requires IsHexDigit(h) && IsHexDigit(l)
  {
    (HexValue(h) * 16 + HexValue(l)) as byte
  }

  /**
   * Percent-decoding: every "%" followed by two hex digits becomes the byte
   * they spell; every other byte, a stray "%" included, is kept.
   */
  function PercentDecode(s: Text): (r: Text)
    ensures |r| <= |s|
  {
    if s == [] then []
    else if s[0] == Percent && |s| >= 3 && IsHexDigit(s[1]) && IsHexDigit(s[2]) then
      [EscapedByte(s[1], s[2])] + PercentDecode(s[3..])
    else
      [s[0]] + PercentDecode(s[1..])
  }

  /** Decoding leaves a segment without "%" untouched. */
  lemma {:induction false} PercentDecodeIdentity(s: Text)
    requires Percent !in s
    ensures PercentDecode(s) == s
  {
    if s != [] {
      PercentDecodeIdentity(s[1..]);
      assert s == [s[0]] + s[1..];
    }
  }

  /** The upper-case hex digit for a value below 16. */
  function HexDigit(v: nat): (b: byte)
    requires v < 16
    ensures IsHexDigit(b) && HexValue(b) == v
  {
    if v < 10 then (0x30 + v) as byte else (0x41 + v - 10) as byte
  }

  /** Every byte written as an escape "%HL": the encoding decoding inverts. */
  function PercentEncode(s: Text): (r: Text)
    ensures |r| == 3 * |s|
  {
    if s == [] then []
    else [Percent, HexDigit(s[0] as nat / 16), HexDigit(s[0] as nat % 16)] + PercentEncode(s[1..])
  }

  /** Decoding recovers any byte string from its escaped form. */
  lemma {:induction false} PercentDecodeEncode(s: Text)
    ensures PercentDecode(PercentEncode(s)) == s
  {
    if s != [] {
      var e := PercentEncode(s);
      var h, l := HexDigit(s[0] as nat / 16), HexDigit(s[0] as nat % 16);
      assert e[..3] == [Percent, h, l] && e[3..] == PercentEncode(s[1..]);
      assert EscapedByte(h, l) == s[0];
      PercentDecodeEncode(s[1..]);
      assert s == [s[0]] + s[1..];
    }
  }

  predicate InRange(b: byte, lo: byte, hi: byte)
  {
    lo <= b <= hi
  }

  predicate IsContinuation(b: byte)
  {
    InRange(b, 0x80, 0xBF)
  }

  /**
   * The length of the well-formed UTF-8 sequence that starts `s`, or 0 when
   * `s` does not start with one (an overlong form, a surrogate, a code point
   * above U+10FFFF, a stray continuation byte or a truncated sequence).
   */
  function SequenceLength(s: Text): (n: nat)
    requires |s| > 0
    ensures n <= 4 && n <= |s|
  {
    var b := s[0];
    if b < 0x80 then 1
    else if 0xC2 <= b <= 0xDF then
      if |s| >= 2 && IsContinuation(s[1]) then 2 else 0
    else if 0xE0 <= b <= 0xEF then
      var lo: byte := if b == 0xE0 then 0xA0 else 0x80;
      var hi: byte := if b == 0xED then 0x9F else 0xBF;
      if |s| >= 3 && InRange(s[1], lo, hi) && IsContinuation(s[2]) then 3 else 0
    else if 0xF0 <= b <= 0xF4 then
      var lo: byte := if b == 0xF0 then 0x90 else 0x80;
      var hi: byte := if b == 0xF4 then 0x8F else 0xBF;
      if |s| >= 4 && InRange(s[1], lo, hi) && IsContinuation(s[2]) && IsContinuation(s[3]) then 4 else 0
    else 0
  }

  /** `s` is a sequence of well-formed UTF-8 encoded scalar values. */
  predicate ValidUtf8(s: Text)
    decreases |s|
  {
    s == [] || (SequenceLength(s) > 0 && ValidUtf8(s[SequenceLength(s)..]))
  }

  predicate IsAscii(s: Text)
  {
    forall i | 0 <= i < |s| :: s[i] < 0x80
  }

  /** ASCII text is valid UTF-8. */
  lemma {:induction false} AsciiIsValidUtf8(s: Text)
    requires IsAscii(s)
    ensures ValidUtf8(s)
  {
    if s != [] {
      assert SequenceLength(s) == 1;
      AsciiIsValidUtf8(s[1..]);
    }
  }

  /**
   * `urldecode`: the percent-decoded segment, which must be valid UTF-8 (the
   * source unwraps the UTF-8 check, so anything else panics).  A segment
   * with no "%" comes back unchanged.
   */
  function UrlDecode(s: Text): (r: Text)
    requires ValidUtf8(PercentDecode(s))
    ensures ValidUtf8(r)
    ensures Percent !in s ==> r == s
  {
    var r := PercentDecode(s);
    assert Percent !in s ==> r == s by {
      if Percent !in s {
        PercentDecodeIdentity(s);
      }
    }
    r
  }
}
