/**
 * Bytes of the source text, the ASCII classes the scanner tests them against
 * (`u8::is_ascii_digit` and friends), and well-formed UTF-8, which is what
 * `str::from_utf8` accepts.
 */
module Bytes {

  newtype byte = b: int | 0 <= b < 256

  const NEWLINE: byte := '\n' as byte
  const CARRIAGE_RETURN: byte := '\r' as byte
  const TAB: byte := '\t' as byte
  const SPACE: byte := ' ' as byte
  const QUOTE: byte := '"' as byte
  const SLASH: byte := '/' as byte
  const EQUALS: byte := '=' as byte
  const BANG: byte := '!' as byte
  const LESS: byte := '<' as byte
  const GREATER: byte := '>' as byte
  const DOT: byte := '.' as byte
  const UNDERSCORE: byte := '_' as byte

  predicate IsAscii(b: byte) {
    b < 0x80
  }

  predicate IsDigit(b: byte) {
    '0' as byte <= b <= '9' as byte
  }

  predicate IsAlpha(b: byte) {
    ('a' as byte <= b <= 'z' as byte) || ('A' as byte <= b <= 'Z' as byte)
  }

  /** The bytes an identifier may continue with: `is_ascii_alphanumeric() || == b'_'`. */
  predicate IsIdentChar(b: byte) {
    IsAlpha(b) || IsDigit(b) || b == UNDERSCORE
  }

  predicate NotNewline(b: byte) {
    b != NEWLINE
  }

  predicate AllAscii(s: seq<byte>) {
    forall i :: 0 <= i < |s| ==> IsAscii(s[i])
  }

  predicate IsContinuation(b: byte) {
    0x80 <= b <= 0xBF
  }

  /** The admissible second byte of a multi-byte sequence after lead byte `lead`. */
  predicate SecondByteOk(lead: byte, b: byte) {
    if lead == 0xE0 then 0xA0 <= b <= 0xBF
    else if lead == 0xED then 0x80 <= b <= 0x9F
    else if lead == 0xF0 then 0x90 <= b <= 0xBF
    else if lead == 0xF4 then 0x80 <= b <= 0x8F
    else IsContinuation(b)
  }

  /** How many bytes the character starting with `lead` has; 0 for a byte that cannot start one. */
  function SequenceLength(lead: byte): (n: nat)
    ensures n <= 4
    ensures n == 1 <==> IsAscii(lead)
    ensures IsContinuation(lead) ==> n == 0
  {
    if lead < 0x80 then 1
    else if 0xC2 <= lead <= 0xDF then 2
    else if 0xE0 <= lead <= 0xEF then 3
    else if 0xF0 <= lead <= 0xF4 then 4
    else 0
  }

  /** One well-formed character, given as its lead byte's full sequence. */
  predicate WellFormedChar(c: seq<byte>)
    requires 0 < |c|
  {
    |c| == SequenceLength(c[0])
    && (|c| >= 2 ==> SecondByteOk(c[0], c[1]))
    && (forall i :: 2 <= i < |c| ==> IsContinuation(c[i]))
  }

  /** The code point a well-formed character encodes: the payload bits of its bytes, most significant first. */
  function CodePoint(c: seq<byte>): (cp: nat)
    requires 0 < |c| && WellFormedChar(c)
  {
    if |c| == 1 then c[0] as nat
    else if |c| == 2 then (c[0] as nat - 0xC0) * 0x40 + (c[1] as nat - 0x80)
    else if |c| == 3 then (c[0] as nat - 0xE0) * 0x1000 + (c[1] as nat - 0x80) * 0x40 + (c[2] as nat - 0x80)
    else (c[0] as nat - 0xF0) * 0x4_0000 + (c[1] as nat - 0x80) * 0x1000 + (c[2] as nat - 0x80) * 0x40 + (c[3] as nat - 0x80)
  }

  /**
   * The lead-byte lengths and second-byte limits of table 3-7 admit each
   * Unicode scalar value in its shortest form only: one byte below U+0080,
   * two below U+0800, three below U+10000 with the surrogates excluded, and
   * four up to U+10FFFF.
   */
  lemma CodePointRange(c: seq<byte>)
    requires 0 < |c| && WellFormedChar(c)
    ensures |c| == 1 ==> CodePoint(c) < 0x80
    ensures |c| == 2 ==> 0x80 <= CodePoint(c) < 0x800
    ensures |c| == 3 ==> 0x800 <= CodePoint(c) < 0x1_0000 && !(0xD800 <= CodePoint(c) < 0xE000)
    ensures |c| == 4 ==> 0x1_0000 <= CodePoint(c) < 0x11_0000
  {
  }

  /**
   * Well-formed UTF-8 in the sense of the Unicode standard (table 3-7 of
   * chapter 3): no overlong forms, no surrogates, nothing above U+10FFFF.
   */
  predicate ValidUtf8(s: seq<byte>)
    decreases |s|
  {
    if s == [] then true
    else
      var n := SequenceLength(s[0]);
      0 < n <= |s| && WellFormedChar(s[..n]) && ValidUtf8(s[n..])
  }

  /** Pure ASCII is always valid UTF-8: the `unwrap`s on ASCII lexemes never fail. */
  lemma {:induction false} AsciiIsUtf8(s: seq<byte>)
    requires AllAscii(s)
    ensures ValidUtf8(s)
    decreases |s|
  {
    if s != [] {
      assert AllAscii(s[1..]) by {
        forall i | 0 <= i < |s[1..]| ensures IsAscii(s[1..][i]) {
          assert s[1..][i] == s[i + 1];
        }
      }
      AsciiIsUtf8(s[1..]);
    }
  }

  /** Concatenating two well-formed texts gives well-formed text. */
  lemma {:induction false} Utf8Concat(a: seq<byte>, b: seq<byte>)
    requires ValidUtf8(a) && ValidUtf8(b)
    ensures ValidUtf8(a + b)
    decreases |a|
  {
    if a == [] {
      assert a + b == b;
    } else {
      var n := SequenceLength(a[0]);
      var ab := a + b;
      assert ab[0] == a[0] && ab[..n] == a[..n] && ab[n..] == a[n..] + b;
      Utf8Concat(a[n..], b);
    }
  }

  /** The text of an ASCII lexeme: each byte is one character of the same code. */
  function AsciiText(bs: seq<byte>): (t: string)
    requires AllAscii(bs)
    ensures |t| == |bs|
    ensures forall i :: 0 <= i < |t| ==> t[i] as int == bs[i] as int
  {
    seq(|bs|, i requires 0 <= i < |bs| => bs[i] as char)
  }
}
