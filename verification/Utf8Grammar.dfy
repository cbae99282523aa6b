/**
 UTF-8 as sections 3 and 4 of RFC 3629 define it, independently of either implementation.
 */
module Utf8Grammar {

  import opened Bytes

  predicate Tail(b: Byte) { 0x80 <= b <= 0xBF }

  /** UTF8-2, UTF8-3 and UTF8-4 of section 4. */
  predicate Two(a: Byte, b: Byte) {
    0xC2 <= a <= 0xDF && Tail(b)
  }

  predicate Three(a: Byte, b: Byte, c: Byte) {
    && Tail(c)
    && (|| (a == 0xE0 && 0xA0 <= b <= 0xBF)
        || (0xE1 <= a <= 0xEC && Tail(b))
        || (a == 0xED && 0x80 <= b <= 0x9F)
        || (0xEE <= a <= 0xEF && Tail(b)))
  }

  predicate Four(a: Byte, b: Byte, c: Byte, d: Byte) {
    && Tail(c)
    && Tail(d)
    && (|| (a == 0xF0 && 0x90 <= b <= 0xBF)
        || (0xF1 <= a <= 0xF3 && Tail(b))
        || (a == 0xF4 && 0x80 <= b <= 0x8F))
  }

  /** UTF8-char */
  predicate IsChar(s: seq<Byte>) {
    || (|s| == 1 && s[0] <= 0x7F)
    || (|s| == 2 && Two(s[0], s[1]))
    || (|s| == 3 && Three(s[0], s[1], s[2]))
    || (|s| == 4 && Four(s[0], s[1], s[2], s[3]))
  }

  /** The character number: the bits of the table in section 3, put together. */
  function CodePoint(s: seq<Byte>): nat
    requires IsChar(s)
  {
    if |s| == 1 then s[0]
    else if |s| == 2 then CodePoint2(s[0], s[1])
    else if |s| == 3 then CodePoint3(s[0], s[1], s[2])
    else CodePoint4(s[0], s[1], s[2], s[3])
  }

  function CodePoint2(a: int, b: int): nat { a % 0x20 * 0x40 + b % 0x40 }
  function CodePoint3(a: int, b: int, c: int): nat { a % 0x10 * 0x1000 + b % 0x40 * 0x40 + c % 0x40 }
  function CodePoint4(a: int, b: int, c: int, d: int): nat {
    a % 0x08 * 0x40000 + b % 0x40 * 0x1000 + c % 0x40 * 0x40 + d % 0x40
  }

  type Char = c: seq<Byte> | IsChar(c) witness [0]

  function Concat(chars: seq<Char>): seq<Byte> {
    if chars == [] then [] else chars[0] + Concat(chars[1..])
  }

  function CodePoints(chars: seq<Char>): seq<nat> {
    if chars == [] then [] else [CodePoint(chars[0])] + CodePoints(chars[1..])
  }

  /** UTF8-octets: a concatenation of UTF8-char sequences. */
  ghost predicate WellFormed(s: seq<Byte>) {
    exists chars: seq<Char> :: Concat(chars) == s
  }

  predicate IsSurrogate(cp: nat) { 0xD800 <= cp <= 0xDFFF }

  lemma TailBits(b: Byte)
    requires Tail(b)
    ensures b % 0x40 == b - 0x80
  {
  }

  lemma Range2(a: Byte, b: Byte)
    requires Two(a, b)
    ensures CodePoint2(a, b) == (a - 0xC0) * 0x40 + (b - 0x80)
    ensures 0x7F < CodePoint2(a, b) <= 0x7FF
  {
    TailBits(b);
    assert a % 0x20 == a - 0xC0;
  }

  lemma Range3(a: Byte, b: Byte, c: Byte)
    requires Three(a, b, c)
    ensures CodePoint3(a, b, c) == (a - 0xE0) * 0x1000 + (b - 0x80) * 0x40 + (c - 0x80)
    ensures 0x7FF < CodePoint3(a, b, c) <= 0xFFFF && !IsSurrogate(CodePoint3(a, b, c))
  {
    TailBits(b);
    TailBits(c);
    assert a % 0x10 == a - 0xE0;
  }

  lemma Range4(a: Byte, b: Byte, c: Byte, d: Byte)
    requires Four(a, b, c, d)
    ensures CodePoint4(a, b, c, d) == (a - 0xF0) * 0x40000 + (b - 0x80) * 0x1000 + (c - 0x80) * 0x40 + (d - 0x80)
    ensures 0xFFFF < CodePoint4(a, b, c, d) <= 0x10FFFF
  {
    TailBits(b);
    TailBits(c);
    TailBits(d);
    assert a % 8 == a - 0xF0;
  }

  /** Every character number is in range, is no surrogate, and has its own number of octets. */
  lemma CodePointRange(c: Char)
    ensures CodePoint(c) <= 0x10FFFF && !IsSurrogate(CodePoint(c))
    ensures |c| == OctetCount(CodePoint(c))
  {
    hide CodePoint2, CodePoint3, CodePoint4;
    if |c| == 2 {
      Range2(c[0], c[1]);
    } else if |c| == 3 {
      Range3(c[0], c[1], c[2]);
    } else if |c| == 4 {
      Range4(c[0], c[1], c[2], c[3]);
    }
  }

  /** The table in section 3: how many octets a character number takes. */
  function OctetCount(cp: nat): nat {
    if cp <= 0x7F then 1 else if cp <= 0x7FF then 2 else if cp <= 0xFFFF then 3 else 4
  }

  /** The length of the character at the start of `s`, or 0 when there is none. */
  function FirstLength(s: seq<Byte>): (n: nat)
    ensures n <= 4 && n <= |s|
    ensures 0 < n ==> IsChar(s[..n])
    ensures n == 0 ==> forall k :: 0 < k <= |s| ==> !IsChar(s[..k])
  {
    if |s| >= 1 && IsChar(s[..1]) then 1
    else if |s| >= 2 && IsChar(s[..2]) then 2
    else if |s| >= 3 && IsChar(s[..3]) then 3
    else if |s| >= 4 && IsChar(s[..4]) then 4
    else 0
  }

  /** No character is a proper prefix of another. */
  lemma CharsArePrefixFree(c: Char, d: Char)
    requires c <= d
    ensures c == d
  {
    assert c[0] == d[0];
    assert c == d[..|c|];
  }

  lemma FirstLengthIs(c: Char, rest: seq<Byte>)
    ensures FirstLength(c + rest) == |c|
  {
    var s := c + rest;
    assert s[..|c|] == c && 1 <= |c| <= 4;
    var n := FirstLength(s);
    assert 0 < n <= |c|;
    assert s[..n] <= c;
    CharsArePrefixFree(s[..n], c);
  }
}
