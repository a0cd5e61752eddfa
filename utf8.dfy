/**
 * UTF-8 encoding of text as `new TextEncoder().encode(s)` produces it
 * (the encoding form of section 3 of RFC 3629), and `textBytes`, the length of
 * that encoding (scripts/embed.ts). Text is a sequence of Unicode scalar values.
 */
module Utf8 {

  type byte = x: int | 0 <= x < 0x100

  /** The number of bytes RFC 3629 uses for the scalar value `c`. */
  function Width(c: char): (w: nat)
    ensures 1 <= w <= 4
    ensures (w == 1) == (c as int < 0x80)
    ensures (w == 4) == (0x10000 <= c as int)
  {
    var n := c as int;
    if n < 0x80 then 1
    else if n < 0x800 then 2
    else if n < 0x10000 then 3
    else 4
  }

  /** A continuation byte, `10xxxxxx`. */
  predicate IsContinuation(b: byte) {
    0x80 <= b < 0xC0
  }

  /** The encoding of one scalar value: a lead byte that announces the width, then continuation bytes. */
  function CharBytes(c: char): (bs: seq<byte>)
    ensures |bs| == Width(c)
    ensures |bs| == 1 ==> bs[0] < 0x80
    ensures |bs| == 2 ==> 0xC2 <= bs[0] <= 0xDF
    ensures |bs| == 3 ==> 0xE0 <= bs[0] <= 0xEF
    ensures |bs| == 4 ==> 0xF0 <= bs[0] <= 0xF4
    ensures forall i :: 1 <= i < |bs| ==> IsContinuation(bs[i])
  {
    var n := c as int;
    if n < 0x80 then [n]
    else if n < 0x800 then [0xC0 + n / 0x40, 0x80 + n % 0x40]
    else if n < 0x10000 then [0xE0 + n / 0x1000, 0x80 + (n / 0x40) % 0x40, 0x80 + n % 0x40]
    else [0xF0 + n / 0x40000, 0x80 + (n / 0x1000) % 0x40, 0x80 + (n / 0x40) % 0x40, 0x80 + n % 0x40]
  }

  /** The scalar value that the encoding of one character spells out. */
  function DecodeChar(bs: seq<byte>): int
    requires 1 <= |bs| <= 4
  {
    var b := seq(|bs|, i requires 0 <= i < |bs| => bs[i] as int);
    if |b| == 1 then b[0]
    else if |b| == 2 then (b[0] - 0xC0) * 0x40 + (b[1] - 0x80)
    else if |b| == 3 then (b[0] - 0xE0) * 0x1000 + (b[1] - 0x80) * 0x40 + (b[2] - 0x80)
    else (b[0] - 0xF0) * 0x40000 + (b[1] - 0x80) * 0x1000 + (b[2] - 0x80) * 0x40 + (b[3] - 0x80)
  }

  /** The encoding of a character loses nothing: decoding it gives the character back. */
  lemma CharBytesDecode(c: char)
    ensures DecodeChar(CharBytes(c)) == c as int
  {
    var n := c as int;
    var bs := CharBytes(c);
    if n < 0x80 {
    } else if n < 0x800 {
      SixBitDigits(n);
      assert bs == [0xC0 + n / 0x40, 0x80 + n % 0x40];
    } else if n < 0x10000 {
      SixBitDigits(n);
      SixBitDigits(n / 0x40);
      assert bs == [0xE0 + n / 0x1000, 0x80 + (n / 0x40) % 0x40, 0x80 + n % 0x40];
    } else {
      SixBitDigits(n);
      SixBitDigits(n / 0x40);
      SixBitDigits(n / 0x1000);
      assert bs == [0xF0 + n / 0x40000, 0x80 + (n / 0x1000) % 0x40, 0x80 + (n / 0x40) % 0x40, 0x80 + n % 0x40];
    }
  }

  /** Splitting off the low six bits, and the quotients by successive powers of 64. */
  lemma SixBitDigits(n: nat)
    ensures n == (n / 0x40) * 0x40 + n % 0x40
    ensures n / 0x1000 == (n / 0x40) / 0x40 && n / 0x40000 == (n / 0x1000) / 0x40
  {
  }

  /** `new TextEncoder().encode(s)`: the encodings of the characters, one after another. */
  function Encode(s: string): seq<byte>
  {
    if s == [] then [] else CharBytes(s[0]) + Encode(s[1..])
  }

  /** `textBytes(s)`: the length of the UTF-8 encoding of `s`. */
  function TextBytes(s: string): (n: nat)
    ensures n == |Encode(s)|
    ensures |s| <= n <= 4 * |s|
    ensures n == 0 <==> s == []
  {
    if s == [] then 0 else Width(s[0]) + TextBytes(s[1..])
  }

  /** Encoding distributes over concatenation. */
  lemma {:induction false} EncodeAppend(a: string, b: string)
    ensures Encode(a + b) == Encode(a) + Encode(b)
    ensures TextBytes(a + b) == TextBytes(a) + TextBytes(b)
  {
    if a == [] {
      assert a + b == b;
    } else {
      assert (a + b)[0] == a[0] && (a + b)[1..] == a[1..] + b;
      EncodeAppend(a[1..], b);
    }
  }

  /** Text made of ASCII characters takes one byte per character. */
  lemma {:induction false} AsciiBytes(s: string)
    requires forall i :: 0 <= i < |s| ==> s[i] as int < 0x80
    ensures TextBytes(s) == |s|
  {
    if s != [] {
      AsciiBytes(s[1..]);
    }
  }
}
