/**
 * Text as the chat client holds it: a Rust `String` is a sequence of bytes that is
 * well-formed UTF-8 (`WellFormed` below). Well-formedness follows the byte-sequence grammar of section 4
 * of RFC 3629; the encoder is the one `String::push` applies to a `char`.
 * No decoder is modelled: where the client decodes received bytes, the model only
 * asks that they be well-formed.
 */
module Utf8 {

  type byte = b: int | 0 <= b < 0x100

  /** A continuation byte, 80..BF. */
  predicate IsTail(b: byte) {
    0x80 <= b <= 0xBF
  }

  /**
   * How many bytes the encoding led by `lead` has (the first byte of each of the
   * UTF8-1 .. UTF8-4 rules of RFC 3629, section 4), or 0 for a byte no encoding starts with.
   */
  function SequenceLength(lead: byte): (n: nat)
    ensures n <= 4
  {
    if lead < 0x80 then 1
    else if 0xC2 <= lead <= 0xDF then 2
    else if 0xE0 <= lead <= 0xEF then 3
    else if 0xF0 <= lead <= 0xF4 then 4
    else 0
  }

  /** The range RFC 3629 allows for the byte after `lead`, which excludes overlongs, surrogates and code points past U+10FFFF. */
  predicate SecondByteOk(lead: byte, b: byte) {
    if lead == 0xE0 then 0xA0 <= b <= 0xBF
    else if lead == 0xED then 0x80 <= b <= 0x9F
    else if lead == 0xF0 then 0x90 <= b <= 0xBF
    else if lead == 0xF4 then 0x80 <= b <= 0x8F
    else IsTail(b)
  }

  /**
   * The length of the well-formed character encoding that starts `s`, or 0 when `s`
   * does not start with one.
   */
  function LeadLength(s: seq<byte>): (k: nat)
    ensures k <= 4 && k <= |s|
    ensures k > 0 ==> k == SequenceLength(s[0])
  {
    if |s| == 0 then 0
    else
      var n := SequenceLength(s[0]);
      if n == 0 || |s| < n then 0
      else if n == 1 then 1
      else if SecondByteOk(s[0], s[1]) && (n < 3 || IsTail(s[2])) && (n < 4 || IsTail(s[3])) then n
      else 0
  }

  /** `s` is a concatenation of well-formed character encodings. */
  predicate WellFormed(s: seq<byte>)
    decreases |s|
  {
    |s| == 0 || (LeadLength(s) > 0 && WellFormed(s[LeadLength(s)..]))
  }

  /** The first character's encoding is not affected by what follows it. */
  lemma LeadLengthPrefix(a: seq<byte>, b: seq<byte>)
    requires LeadLength(a) > 0
    ensures LeadLength(a + b) == LeadLength(a)
  {
    var ab := a + b;
    assert |a| >= 1 && ab[0] == a[0];
    if |a| >= 2 { assert ab[1] == a[1]; }
    if |a| >= 3 { assert ab[2] == a[2]; }
    if |a| >= 4 { assert ab[3] == a[3]; }
  }

  /** Well-formed text stays well-formed when well-formed text is appended (what `push_str` relies on). */
  lemma {:induction false} ConcatWellFormed(a: seq<byte>, b: seq<byte>)
    requires WellFormed(a) && WellFormed(b)
    ensures WellFormed(a + b)
    decreases |a|
  {
    if |a| == 0 {
      assert a + b == b;
    } else {
      var k := LeadLength(a);
      LeadLengthPrefix(a, b);
      ConcatWellFormed(a[k..], b);
      assert (a + b)[k..] == a[k..] + b;
    }
  }

  /**
   * The UTF-8 encoding of one Unicode scalar value: 1 to 4 bytes, a single byte
   * exactly for ASCII, and always a single well-formed character.
   */
  function EncodeChar(c: char): (r: seq<byte>)
    ensures |r| == (if c as int < 0x80 then 1 else if c as int < 0x800 then 2
                    else if c as int < 0x10000 then 3 else 4)
    ensures (c as int < 0x80) <==> r == [c as int]
    ensures LeadLength(r) == |r| && WellFormed(r)
  {
    var cp := c as int;
    if cp < 0x80 then [cp]
    else if cp < 0x800 then EncodeTwo(cp)
    else if cp < 0x10000 then EncodeThree(cp)
    else EncodeFour(cp)
  }

  /** Two bytes: 110xxxxx 10xxxxxx, for U+0080 .. U+07FF. */
  function EncodeTwo(cp: int): (r: seq<byte>)
    requires 0x80 <= cp < 0x800
    ensures |r| == 2 && LeadLength(r) == 2 && WellFormed(r)
  {
    var r := [0xC0 + cp / 0x40, 0x80 + cp % 0x40];
    assert r[LeadLength(r)..] == [];
    r
  }

  /** Three bytes: 1110xxxx 10xxxxxx 10xxxxxx, for U+0800 .. U+FFFF outside the surrogates. */
  function EncodeThree(cp: int): (r: seq<byte>)
    requires 0x800 <= cp < 0x10000 && !(0xD800 <= cp < 0xE000)
    ensures |r| == 3 && LeadLength(r) == 3 && WellFormed(r)
  {
    var r := [0xE0 + cp / 0x1000, 0x80 + cp / 0x40 % 0x40, 0x80 + cp % 0x40];
    assert cp / 0x1000 == 0 ==> cp / 0x40 % 0x40 >= 0x20;
    assert cp / 0x1000 == 0xD ==> cp / 0x40 % 0x40 < 0x20;
    assert r[LeadLength(r)..] == [];
    r
  }

  /** Four bytes: 11110xxx 10xxxxxx 10xxxxxx 10xxxxxx, for U+10000 .. U+10FFFF. */
  function EncodeFour(cp: int): (r: seq<byte>)
    requires 0x10000 <= cp < 0x110000
    ensures |r| == 4 && LeadLength(r) == 4 && WellFormed(r)
  {
    var r := [0xF0 + cp / 0x40000, 0x80 + cp / 0x1000 % 0x40, 0x80 + cp / 0x40 % 0x40, 0x80 + cp % 0x40];
    assert cp / 0x40000 == 0 ==> cp / 0x1000 % 0x40 >= 0x10;
    assert cp / 0x40000 == 4 ==> cp / 0x1000 % 0x40 < 0x10;
    assert r[LeadLength(r)..] == [];
    r
  }

  /**
   * The code point a 1- to 4-byte character encoding carries: the payload bits of the
   * lead byte (7, 5, 4 or 3 of them) followed by the low 6 bits of each continuation byte.
   */
  function CodePoint(r: seq<byte>): (cp: int)
    requires 1 <= |r| <= 4
    ensures 0 <= cp < 0x200000
  {
    if |r| == 1 then r[0] as int % 0x80
    else if |r| == 2 then r[0] as int % 0x20 * 0x40 + r[1] as int % 0x40
    else if |r| == 3 then r[0] as int % 0x10 * 0x1000 + r[1] as int % 0x40 * 0x40 + r[2] as int % 0x40
    else r[0] as int % 0x08 * 0x40000 + r[1] as int % 0x40 * 0x1000 + r[2] as int % 0x40 * 0x40 + r[3] as int % 0x40
  }

  /** The bytes `EncodeChar` produces carry exactly the character's code point. */
  lemma EncodeCharRoundTrip(c: char)
    ensures CodePoint(EncodeChar(c)) == c as int
  {
    var cp := c as int;
    if cp < 0x80 {
    } else if cp < 0x800 {
      EncodeTwoRoundTrip(cp);
    } else if cp < 0x10000 {
      EncodeThreeRoundTrip(cp);
    } else {
      EncodeFourRoundTrip(cp);
    }
  }

  lemma EncodeTwoRoundTrip(cp: int)
    requires 0x80 <= cp < 0x800
    ensures CodePoint(EncodeTwo(cp)) == cp
  {
    var hi := cp / 0x40;
    assert (0xC0 + hi) % 0x20 == hi;
  }

  lemma EncodeThreeRoundTrip(cp: int)
    requires 0x800 <= cp < 0x10000 && !(0xD800 <= cp < 0xE000)
    ensures CodePoint(EncodeThree(cp)) == cp
  {
    var hi, mid := cp / 0x1000, cp / 0x40 % 0x40;
    assert (0xE0 + hi) % 0x10 == hi;
    assert cp == hi * 0x1000 + mid * 0x40 + cp % 0x40;
  }

  lemma EncodeFourRoundTrip(cp: int)
    requires 0x10000 <= cp < 0x110000
    ensures CodePoint(EncodeFour(cp)) == cp
  {
    var hi, b1, b2 := cp / 0x40000, cp / 0x1000 % 0x40, cp / 0x40 % 0x40;
    assert (0xF0 + hi) % 0x08 == hi;
    assert cp == hi * 0x40000 + b1 * 0x1000 + b2 * 0x40 + cp % 0x40;
  }

  /** The UTF-8 encoding of a string: its characters' encodings, in order. */
  function EncodeString(s: seq<char>): (r: seq<byte>)
    ensures WellFormed(r)
    ensures |s| <= |r| <= 4 * |s|
    ensures (forall i :: 0 <= i < |s| ==> s[i] as int < 0x80) ==> |r| == |s| && forall i :: 0 <= i < |s| ==> r[i] == s[i] as int
  {
    if s == [] then []
    else
      var head := EncodeChar(s[0]);
      var tail := EncodeString(s[1..]);
      ConcatWellFormed(head, tail);
      head + tail
  }
}
