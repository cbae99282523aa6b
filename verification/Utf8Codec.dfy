/**
 rapidjson's UTF-8 encoder and stream decoder, against the same grammar as the automaton.
 */
module Utf8Codec {
  import opened Bytes
  import opened Utf8Grammar
  import Validator = Utf8Validator

  /** The type table: ranges 1, 7 and 9 of the automaton become the bits 0x10, 0x20 and 0x40. */
  function GetRange(c: Byte): bv8 {
    if c < 0x80 then 0
    else if c < 0x90 then 0x10
    else if c < 0xA0 then 0x40
    else if c < 0xC0 then 0x20
    else if c < 0xC2 then 8
    else if c < 0xE0 then 2
    else if c == 0xE0 then 10
    else if c < 0xED then 3
    else if c == 0xED then 4
    else if c < 0xF0 then 3
    else if c == 0xF0 then 11
    else if c < 0xF4 then 6
    else if c == 0xF4 then 5
    else 8
  }

  /** (0xFF >> type) & c, for the types that start a character. */
  function RangeBits(t: bv8, c: Byte): nat {
    var x: int := c;
    if t == 2 then x % 0x40 else if t == 3 then x % 0x20 else if t == 4 then x % 0x10
    else if t == 5 then x % 8 else if t == 6 then x % 4 else 0
  }

  /** A zero-terminated source with a read position; past its end it yields zeros. */
  class InputStream {
    const src: seq<Byte>
    var pos: nat

    constructor (s: seq<Byte>)
      ensures src == s && pos == 0
    {
      src, pos := s, 0;
    }

    function At(i: nat): Byte {
      if i < |src| then src[i] else 0
    }

    /** The next four bytes, which is as far as one character can reach. */
    function Ahead(): (r: seq<Byte>)
      reads this
      ensures |r| == 4
    {
      [At(pos), At(pos + 1), At(pos + 2), At(pos + 3)]
    }

    method Take() returns (c: Byte)
      modifies `pos
      ensures c == At(old(pos)) && pos == old(pos) + 1
    {
      c := if pos < |src| then src[pos] else 0;
      pos := pos + 1;
    }

    /** COPY() and TRANS(mask): one more byte of the character. */
    method Copy(codepoint: nat, result: bool, mask: bv8) returns (codepoint': nat, result': bool)
      requires mask == 0x70 || mask == 0x50 || mask == 0x10 || mask == 0x20 || mask == 0x60
      modifies `pos
      ensures pos == old(pos) + 1
      ensures var c := At(old(pos));
        result' == (result && InRange(mask, c)) &&
          (result' && codepoint < 0x20_0000 ==> codepoint' == Put(codepoint, c))
    {
      var c := Take();
      codepoint' := (codepoint * 0x40 + c % 0x40) % 0x1_0000_0000;
      result' := result && GetRange(c) & mask != 0;
      Masks(c);
      hide GetRange;
      if Tail(c) { TailBits(c); }
    }

    /** One step with the given mask, then one TAIL(). */
    method CopyTwo(codepoint: nat, mask: bv8) returns (codepoint': nat, result: bool)
      requires codepoint < 0x20 && (mask == 0x70 || mask == 0x50 || mask == 0x20)
      modifies `pos
      ensures pos == old(pos) + 2
      ensures var c, d := At(old(pos)), At(old(pos) + 1);
        && result == (InRange(mask, c) && Tail(d))
        && (result ==> codepoint' == Put(Put(codepoint, c), d))
    {
      var x, ok := Copy(codepoint, true, mask);
      codepoint', result := Copy(x, ok, 0x70);
    }

    /** One step with the given mask, then two TAIL(). */
    method CopyThree(codepoint: nat, mask: bv8) returns (codepoint': nat, result: bool)
      requires codepoint < 8 && (mask == 0x70 || mask == 0x10 || mask == 0x60)
      modifies `pos
      ensures pos == old(pos) + 3
      ensures var c, d, e := At(old(pos)), At(old(pos) + 1), At(old(pos) + 2);
        && result == (InRange(mask, c) && Tail(d) && Tail(e))
        && (result ==> codepoint' == Put(Put(Put(codepoint, c), d), e))
    {
      var x, ok := Copy(codepoint, true, mask);
      x, ok := Copy(x, ok, 0x70);
      codepoint', result := Copy(x, ok, 0x70);
    }

    /**
     Succeeds exactly when the bytes ahead start with a character, and then consumes that
     character and nothing more. The code point means nothing when the result is false.
     */
    method Decode() returns (result: bool, codepoint: nat)
      modifies `pos
      ensures result <==> 0 < FirstLength(old(Ahead()))
      ensures result ==> pos == old(pos) + FirstLength(old(Ahead()))
      ensures result ==> codepoint == CodePoint(old(Ahead())[..FirstLength(old(Ahead()))])
      ensures pos == old(pos) + LeadLength(At(old(pos)))
    {
      hide GetRange, RangeBits, FirstLength, CodePoint;
      ghost var s := Ahead();
      FirstOf(s);
      LeadTable(s[0]);
      FirstPoint(s);
      var c := Take();
      if c < 0x80 {
        return true, c;
      }
      var t := GetRange(c);
      codepoint := RangeBits(t, c);
      if t == 2 {
        codepoint, result := Copy(codepoint, true, 0x70);
      } else if t == 3 {
        codepoint, result := CopyTwo(codepoint, 0x70);
      } else if t == 4 {
        codepoint, result := CopyTwo(codepoint, 0x50);
      } else if t == 5 {
        codepoint, result := CopyThree(codepoint, 0x10);
      } else if t == 6 {
        codepoint, result := CopyThree(codepoint, 0x70);
      } else if t == 10 {
        codepoint, result := CopyTwo(codepoint, 0x20);
      } else if t == 11 {
        codepoint, result := CopyThree(codepoint, 0x60);
      } else {
        result := false;
      }
    }
  }

  /** The continuation bytes that TRANS accepts with each mask. */
  predicate InRange(mask: bv8, c: Byte) {
    if mask == 0x70 then 0x80 <= c <= 0xBF
    else if mask == 0x50 then 0x80 <= c <= 0x9F
    else if mask == 0x10 then 0x80 <= c <= 0x8F
    else if mask == 0x20 then 0xA0 <= c <= 0xBF
    else 0x90 <= c <= 0xBF
  }

  /** A code point with six more bits, from a continuation byte. */
  function Put(codepoint: int, c: int): int { codepoint * 0x40 + (c - 0x80) }

  lemma FirstPoint(s: seq<Byte>)
    requires |s| == 4
    ensures s[0] <= 0x7F ==> FirstLength(s) == 1 && CodePoint(s[..1]) == s[0]
    ensures Two(s[0], s[1]) ==> FirstLength(s) == 2 && CodePoint(s[..2]) == Put(s[0] - 0xC0, s[1])
    ensures Three(s[0], s[1], s[2]) ==> FirstLength(s) == 3 && CodePoint(s[..3]) == Put(Put(s[0] - 0xE0, s[1]), s[2])
    ensures Four(s[0], s[1], s[2], s[3]) ==>
      FirstLength(s) == 4 && CodePoint(s[..4]) == Put(Put(Put(s[0] - 0xF0, s[1]), s[2]), s[3])
  {
    hide FirstLength, CodePoint2, CodePoint3, CodePoint4;
    FirstOf(s);
    if Two(s[0], s[1]) { Range2(s[0], s[1]); }
    if Three(s[0], s[1], s[2]) { Range3(s[0], s[1], s[2]); }
    if Four(s[0], s[1], s[2], s[3]) { Range4(s[0], s[1], s[2], s[3]); }
  }

  /** How many bytes Decode takes, which the first byte alone decides. */
  function LeadLength(c: Byte): nat {
    if c < 0xC2 then 1 else if c < 0xE0 then 2 else if c < 0xF0 then 3 else if c < 0xF5 then 4 else 1
  }

  lemma FirstOf(s: seq<Byte>)
    requires |s| == 4
    ensures FirstLength(s) ==
      if s[0] <= 0x7F then 1 else if Two(s[0], s[1]) then 2 else if Three(s[0], s[1], s[2]) then 3
      else if Four(s[0], s[1], s[2], s[3]) then 4 else 0
  {
    assert s[..4] == s;
  }

  lemma Masks(c: Byte)
    ensures GetRange(c) & 0x70 != 0 <==> Tail(c)
    ensures GetRange(c) & 0x50 != 0 <==> 0x80 <= c <= 0x9F
    ensures GetRange(c) & 0x10 != 0 <==> 0x80 <= c <= 0x8F
    ensures GetRange(c) & 0x20 != 0 <==> 0xA0 <= c <= 0xBF
    ensures GetRange(c) & 0x60 != 0 <==> 0x90 <= c <= 0xBF
  {
  }

  lemma LeadTable(c: Byte)
    ensures GetRange(c) == 2 <==> 0xC2 <= c <= 0xDF
    ensures GetRange(c) == 3 <==> 0xE1 <= c <= 0xEC || 0xEE <= c <= 0xEF
    ensures GetRange(c) == 4 <==> c == 0xED
    ensures GetRange(c) == 5 <==> c == 0xF4
    ensures GetRange(c) == 6 <==> 0xF1 <= c <= 0xF3
    ensures GetRange(c) == 10 <==> c == 0xE0
    ensures GetRange(c) == 11 <==> c == 0xF0
    ensures 0xC2 <= c <= 0xDF ==> RangeBits(GetRange(c), c) == c - 0xC0
    ensures 0xE0 <= c <= 0xEF ==> RangeBits(GetRange(c), c) == c - 0xE0
    ensures 0xF0 <= c <= 0xF4 ==> RangeBits(GetRange(c), c) == c - 0xF0
  {
  }

  // ---------------------------------------------------------------------------
  // Encoding
  // ---------------------------------------------------------------------------

  /** What Encode puts to the stream; the code asserts that the code point is at most 0x10FFFF. */
  function EncodeBytes(cp: nat): (r: seq<Byte>)
    requires cp <= 0x10FFFF
  {
    if cp <= 0x7F then [cp]
    else if cp <= 0x7FF then [0xC0 + cp / 0x40, 0x80 + cp % 0x40]
    else if cp <= 0xFFFF then [0xE0 + cp / 0x1000, 0x80 + cp / 0x40 % 0x40, 0x80 + cp % 0x40]
    else [0xF0 + cp / 0x40000, 0x80 + cp / 0x1000 % 0x40, 0x80 + cp / 0x40 % 0x40, 0x80 + cp % 0x40]
  }

  lemma Encoded3(cp: nat)
    requires 0x7FF < cp <= 0xFFFF && !IsSurrogate(cp)
    ensures var a, b, c := 0xE0 + cp / 0x1000, 0x80 + cp / 0x40 % 0x40, 0x80 + cp % 0x40;
      Three(a, b, c) && CodePoint3(a, b, c) == cp
  {
    hide CodePoint3;
    var x := cp / 0x40;
    SixBits(cp);
    assert cp == x * 0x40 + cp % 0x40 && x == x / 0x40 * 0x40 + x % 0x40;
    Range3(0xE0 + x / 0x40, 0x80 + x % 0x40, 0x80 + cp % 0x40);
  }

  lemma Encoded4(cp: nat)
    requires 0xFFFF < cp <= 0x10FFFF
    ensures var a, b, c, d := 0xF0 + cp / 0x40000, 0x80 + cp / 0x1000 % 0x40, 0x80 + cp / 0x40 % 0x40, 0x80 + cp % 0x40;
      Four(a, b, c, d) && CodePoint4(a, b, c, d) == cp
  {
    hide CodePoint4;
    var x := cp / 0x40;
    var y := x / 0x40;
    SixBits(cp);
    assert cp == x * 0x40 + cp % 0x40 && x == y * 0x40 + x % 0x40 && y == y / 0x40 * 0x40 + y % 0x40;
    Range4(0xF0 + y / 0x40, 0x80 + y % 0x40, 0x80 + x % 0x40, 0x80 + cp % 0x40);
  }

  /** Encoding gives a character exactly for the code points that are not surrogates, and keeps the number. */
  lemma EncodedIsChar(cp: nat)
    requires cp <= 0x10FFFF
    ensures IsChar(EncodeBytes(cp)) <==> !IsSurrogate(cp)
    ensures !IsSurrogate(cp) ==> CodePoint(EncodeBytes(cp)) == cp
  {
    hide CodePoint3, CodePoint4;
    if 0x7F < cp <= 0x7FF {
      Range2(0xC0 + cp / 0x40, 0x80 + cp % 0x40);
    } else if 0x7FF < cp <= 0xFFFF && !IsSurrogate(cp) {
      Encoded3(cp);
    } else if 0xFFFF < cp {
      Encoded4(cp);
    }
  }

  /** Every character of the grammar is the encoding of its own number. */
  lemma CharIsEncoded(c: Char)
    ensures CodePoint(c) <= 0x10FFFF && EncodeBytes(CodePoint(c)) == c
  {
    hide CodePoint2, CodePoint3, CodePoint4;
    CodePointRange(c);
    var cp := CodePoint(c);
    if |c| == 2 {
      Range2(c[0], c[1]);
      PutTakes(c[0] - 0xC0, c[1] - 0x80);
    } else if |c| == 3 {
      Char3IsEncoded(c);
    } else if |c| == 4 {
      Range4(c[0], c[1], c[2], c[3]);
      Digits(c[0] - 0xF0, c[1] - 0x80, c[2] - 0x80, c[3] - 0x80);
    }
  }

  lemma Char3IsEncoded(c: Char)
    requires |c| == 3
    ensures EncodeBytes(CodePoint(c)) == c
  {
    hide CodePoint2, CodePoint3, CodePoint4;
    CodePointRange(c);
    var cp := CodePoint(c);
    Range3(c[0], c[1], c[2]);
    Digits(0, c[0] - 0xE0, c[1] - 0x80, c[2] - 0x80);
    assert cp / 0x1000 == cp / 0x1000 % 0x40;
  }

  class OutputStream {
    var out: seq<Byte>

    constructor ()
      ensures out == []
    {
      out := [];
    }

    method Put(c: Byte)
      modifies this
      ensures out == old(out) + [c]
    {
      out := out + [c];
    }

    method Encode(codepoint: nat)
      requires codepoint <= 0x10FFFF
      modifies this
      ensures out == old(out) + EncodeBytes(codepoint)
    {
      if codepoint <= 0x7F {
        Put(codepoint);
      } else if codepoint <= 0x7FF {
        Put(0xC0 + codepoint / 0x40);
        Put(0x80 + codepoint % 0x40);
      } else if codepoint <= 0xFFFF {
        Put(0xE0 + codepoint / 0x1000);
        Put(0x80 + codepoint / 0x40 % 0x40);
        Put(0x80 + codepoint % 0x40);
      } else {
        Put(0xF0 + codepoint / 0x40000);
        Put(0x80 + codepoint / 0x1000 % 0x40);
        Put(0x80 + codepoint / 0x40 % 0x40);
        Put(0x80 + codepoint % 0x40);
      }
    }
  }

  /** Decoding what was encoded: the same number back, from exactly the bytes written, unless it is a surrogate. */
  method EncodeThenDecode(codepoint: nat, rest: seq<Byte>) returns (result: bool, decoded: nat, consumed: nat)
    requires codepoint <= 0x10FFFF
    ensures result <==> !IsSurrogate(codepoint)
    ensures result ==> decoded == codepoint && consumed == |EncodeBytes(codepoint)|
  {
    var os := new OutputStream();
    os.Encode(codepoint);
    var input := new InputStream(os.out + rest);
    ghost var s := input.Ahead();
    EncodedAhead(codepoint, rest, s);
    result, decoded := input.Decode();
    consumed := input.pos;
  }

  lemma EncodedAhead(cp: nat, rest: seq<Byte>, s: seq<Byte>)
    requires cp <= 0x10FFFF && |s| == 4
    requires var t := EncodeBytes(cp) + rest; forall i :: 0 <= i < 4 ==> s[i] == if i < |t| then t[i] else 0
    ensures 0 < FirstLength(s) <==> !IsSurrogate(cp)
    ensures !IsSurrogate(cp) ==> FirstLength(s) == |EncodeBytes(cp)| && CodePoint(s[..FirstLength(s)]) == cp
  {
    hide FirstLength, CodePoint;
    var c := EncodeBytes(cp);
    assert s[..|c|] == c;
    EncodedIsChar(cp);
    if IsSurrogate(cp) {
      FirstOf(s);
    } else {
      FirstLengthIs(c, s[|c|..]);
      assert s == c + s[|c|..];
    }
  }

  // ---------------------------------------------------------------------------
  // Decoder and automaton
  // ---------------------------------------------------------------------------

  /** The automaton, started in accept, is back there for the first time at the end of `s`. */
  ghost predicate AcceptToAccept(codep: nat, s: seq<Byte>) {
    && s != []
    && Validator.Run(Validator.Decoder(0, codep), s).state == 0
    && forall k :: 0 < k < |s| ==> Validator.Run(Validator.Decoder(0, codep), s[..k]).state != 0
  }

  /**
   Decode and the automaton agree: what Decode consumes on success is what takes the automaton
   from accept to accept, and both end with the same code point.
   */
  lemma DecoderAgreesWithAutomaton(codep: nat, s: seq<Byte>, k: nat)
    requires |s| == 4 && 0 < k <= 4
    ensures AcceptToAccept(codep, s[..k]) <==> FirstLength(s) == k
    ensures FirstLength(s) == k ==> Validator.Run(Validator.Decoder(0, codep), s[..k]).codep == CodePoint(s[..k])
  {
    hide FirstLength, CodePoint, Validator.Step;
    var n := FirstLength(s);
    var d := Validator.Decoder(0, codep);
    if AcceptToAccept(codep, s[..k]) {
      Validator.AcceptedStartsWithChar(codep, s[..k]);
      var m := FirstLength(s[..k]);
      assert s[..k][..m] == s[..m];
      Validator.CharRuns(codep, s[..m]);
      assert m == k;
      FirstLengthIs(s[..k], s[k..]);
      assert s == s[..k] + s[k..];
    }
    if n == k {
      Validator.CharRuns(codep, s[..k]);
      forall j | 0 < j < k ensures Validator.Run(d, s[..k][..j]).state != 0 {
        if Validator.Run(d, s[..k][..j]).state == 0 {
          Validator.AcceptedStartsWithChar(codep, s[..k][..j]);
        }
      }
    }
  }
}
