/**
 The base64 encoder and decoder used for the WebSocket handshake (section 4 of RFC 4648).
 */
module Base64 {
  import opened Bytes

  const PAD: Byte := 61

  /** base64_chars[i] */
  function Symbol(i: int): Byte
    requires 0 <= i < 64
  {
    if i < 26 then 65 + i else if i < 52 then 71 + i else if i < 62 then i - 4 else if i == 62 then 43 else 47
  }

  /** base64_chars.find(c), narrowed to eight bits: 255 when there is none. */
  function Find(c: Byte): (i: Byte)
    ensures i < 64 || i == 255
    ensures IsBase64(c) <==> i < 64
  {
    if 65 <= c <= 90 then c - 65 else if 97 <= c <= 122 then c - 71 else if 48 <= c <= 57 then c + 4
    else if c == 43 then 62 else if c == 47 then 63 else 255
  }

  predicate IsBase64(c: Byte) {
    c == 43 || 47 <= c <= 57 || 65 <= c <= 90 || 97 <= c <= 122
  }

  lemma SymbolTable(i: int)
    requires 0 <= i < 64
    ensures Find(Symbol(i)) == i && IsBase64(Symbol(i)) && Symbol(i) != PAD
  {
  }

  // ---------------------------------------------------------------------------
  // The encoding of section 4, by 24-bit groups
  // ---------------------------------------------------------------------------

  /** The four 6-bit groups of a 24-bit group, as symbols. */
  function Quad(n: int): (r: seq<Byte>)
    requires 0 <= n < 0x100_0000
    ensures |r| == 4
  {
    [Symbol(n / 0x40000), Symbol(n / 0x1000 % 0x40), Symbol(n / 0x40 % 0x40), Symbol(n % 0x40)]
  }

  function Group(a: Byte, b: Byte, c: Byte): (n: int)
    ensures 0 <= n < 0x100_0000
  {
    var x: int, y: int, z: int := a, b, c;
    x * 0x10000 + y * 0x100 + z
  }

  /** Full groups, then a final group padded with zero bits and marked with "=". */
  function Encoding(s: seq<Byte>): seq<Byte> {
    if s == [] then []
    else if |s| == 1 then Quad(Group(s[0], 0, 0))[..2] + [PAD, PAD]
    else if |s| == 2 then Quad(Group(s[0], s[1], 0))[..3] + [PAD]
    else Quad(Group(s[0], s[1], s[2])) + Encoding(s[3..])
  }

  /** The three bytes that four 6-bit groups put together. */
  function Triple(a: int, b: int, c: int, d: int): (r: seq<Byte>)
    requires 0 <= a < 64 && 0 <= b < 64 && 0 <= c < 64 && 0 <= d < 64
    ensures |r| == 3
  {
    var n := ((a * 0x40 + b) * 0x40 + c) * 0x40 + d;
    [n / 0x10000, n / 0x100 % 0x100, n % 0x100]
  }

  predicate AllSymbols(s: seq<Byte>) {
    forall i :: 0 <= i < |s| ==> IsBase64(s[i])
  }

  /** The symbols up to the first pad or foreign character. */
  function Body(s: seq<Byte>): (r: seq<Byte>)
    ensures AllSymbols(r)
  {
    if s == [] || s[0] == PAD || !IsBase64(s[0]) then [] else [s[0]] + Body(s[1..])
  }

  /** Full groups of four symbols, then the whole bytes of what is left. */
  function Decoding(s: seq<Byte>): seq<Byte>
    requires AllSymbols(s)
  {
    if |s| <= 1 then []
    else if |s| == 2 then Triple(Find(s[0]), Find(s[1]), 0, 0)[..1]
    else if |s| == 3 then Triple(Find(s[0]), Find(s[1]), Find(s[2]), 0)[..2]
    else Triple(Find(s[0]), Find(s[1]), Find(s[2]), Find(s[3])) + Decoding(s[4..])
  }

  // ---------------------------------------------------------------------------
  // The loops
  // ---------------------------------------------------------------------------

  /** The shifts and masks of the encoder: four sextets from three bytes. */
  function Sextets(a: int, b: int, c: int): (int, int, int, int) {
    (a / 4, a % 4 * 16 + b / 16, b % 16 * 4 + c / 64, c % 64)
  }

  lemma SextetsOfGroup(a: Byte, b: Byte, c: Byte)
    ensures var n := Group(a, b, c);
      Sextets(a, b, c) == (n / 0x40000, n / 0x1000 % 0x40, n / 0x40 % 0x40, n % 0x40)
  {
    var x := Sextets(a, b, c);
    SextetRange(a, b, c);
    Digits(x.0, x.1, x.2, x.3);
  }

  lemma SextetRange(a: Byte, b: Byte, c: Byte)
    ensures var x := Sextets(a, b, c);
      && 0 <= x.0 < 64 && 0 <= x.1 < 64 && 0 <= x.2 < 64 && 0 <= x.3 < 64
      && x.0 * 0x40000 + x.1 * 0x1000 + x.2 * 0x40 + x.3 == Group(a, b, c)
  {
  }

  /** Splits three bytes into four sextets and writes the first `count` of them as symbols. */
  method WriteSymbols(three: array<Byte>, count: nat) returns (ret: seq<Byte>)
    requires three.Length == 3 && count <= 4
    ensures ret == Quad(Group(three[0], three[1], three[2]))[..count]
  {
    var four := new int[4];
    SextetsOfGroup(three[0], three[1], three[2]);
    var x := Sextets(three[0], three[1], three[2]);
    four[0], four[1], four[2], four[3] := x.0, x.1, x.2, x.3;
    hide Group, Sextets;
    ret := [];
    for j := 0 to count
      invariant ret == Quad(Group(three[0], three[1], three[2]))[..j]
    {
      assert four[j] == if j == 0 then x.0 else if j == 1 then x.1 else if j == 2 then x.2 else x.3;
      ret := ret + [Symbol(four[j])];
    }
  }

  method Base64Encode(input: seq<Byte>) returns (ret: seq<Byte>)
    ensures ret == Encoding(input)
  {
    hide Group, Quad, Encoding;
    ret := [];
    var i := 0;
    var three := new Byte[3](_ => 0);
    ghost var done := 0;
    EncodingOfNothing();
    for n := 0 to |input|
      invariant 0 <= i < 3 && done == n - i && done >= 0 && done % 3 == 0
      invariant forall k :: 0 <= k < i ==> three[k] == input[done + k]
      invariant ret == Encoding(input[..done])
    {
      three[i] := input[n];
      i := i + 1;
      if i == 3 {
        var symbols := WriteSymbols(three, 4);
        EncodingOfNextGroup(input, done, three[0], three[1], three[2]);
        ret := ret + symbols;
        i := 0;
        done := done + 3;
      }
    }
    EncodingAppends(input[..done], input[done..]);
    assert input == input[..done] + input[done..];
    if i != 0 {
      assert input[done..] == three[..i];
      var tail := FinishGroup(three, i);
      ret := ret + tail;
    } else {
      EncodingOfNothing();
    }
  }

  lemma EncodingOfNothing()
    ensures Encoding([]) == []
  {
  }

  lemma EncodingOfNextGroup(s: seq<Byte>, done: nat, a: Byte, b: Byte, c: Byte)
    requires done + 3 <= |s| && done % 3 == 0
    requires s[done] == a && s[done + 1] == b && s[done + 2] == c
    ensures Encoding(s[..done + 3]) == Encoding(s[..done]) + Quad(Group(a, b, c))[..4]
  {
    hide Group, Quad;
    assert s[..done + 3] == s[..done] + [a, b, c];
    EncodingAppends(s[..done], [a, b, c]);
    EncodingOfGroup(a, b, c);
  }

  /** The last one or two bytes, filled up with zeros and pads. */
  method FinishGroup(three: array<Byte>, i: nat) returns (tail: seq<Byte>)
    requires three.Length == 3 && 0 < i < 3
    modifies three
    ensures tail == Encoding(old(three[..i]))
  {
    hide Group, Quad;
    ghost var last := three[..i];
    for j := i to 3
      invariant three[..i] == last
      invariant forall k :: i <= k < j ==> three[k] == 0
    {
      three[j] := 0;
    }
    assert three[0] == last[0] && (i == 2 ==> three[1] == last[1]);
    var symbols := WriteSymbols(three, i + 1);
    tail := symbols;
    var n := i;
    while n < 3
      invariant i <= n <= 3
      invariant tail == symbols + Pads(n - i)
    {
      tail := tail + [PAD];
      n := n + 1;
    }
  }

  function Pads(n: int): seq<Byte>
    requires 0 <= n
  {
    seq(n, _ => PAD)
  }

  lemma EncodingOfGroup(a: Byte, b: Byte, c: Byte)
    ensures Encoding([a, b, c]) == Quad(Group(a, b, c))
  {
    assert Encoding([]) == [];
    assert [a, b, c][3..] == [];
  }

  /** Encoding works group by group. */
  lemma {:induction false} EncodingAppends(a: seq<Byte>, b: seq<Byte>)
    requires |a| % 3 == 0
    ensures Encoding(a + b) == Encoding(a) + Encoding(b)
    decreases |a|
  {
    if a == [] {
      assert a + b == b;
    } else {
      assert (a + b)[3..] == a[3..] + b;
      EncodingAppends(a[3..], b);
    }
  }

  /** The shifts and masks of the decoder, narrowed to eight bits: three bytes from four sextets. */
  function Octets(a: int, b: int, c: int, d: int): (int, int, int) {
    (((a * 4) % 0x100 + b / 16 % 4) % 0x100, (b % 16 * 16 + c / 4 % 16) % 0x100, (c % 4 * 64 + d) % 0x100)
  }

  /**
   They are the three bytes of the 24-bit group; and the first two do not depend on the sextets
   that come after theirs, which hold 255 when the input ends early.
   */
  lemma OctetsOfTriple(a: int, b: int, c: int, d: int)
    requires 0 <= a < 64 && 0 <= b < 64
    ensures 0 <= c < 64 && 0 <= d < 64 ==>
      Triple(a, b, c, d) == [Octets(a, b, c, d).0, Octets(a, b, c, d).1, Octets(a, b, c, d).2]
    ensures Triple(a, b, 0, 0)[0] == Octets(a, b, c, d).0
    ensures 0 <= c < 64 ==> Triple(a, b, c, 0)[1] == Octets(a, b, c, d).1
  {
    hide Triple;
    TripleDigits(a, b, 0, 0);
    OctetsAre(a, b, c, d);
    hide Octets;
    if 0 <= c < 64 {
      TripleDigits(a, b, c, 0);
      if 0 <= d < 64 { TripleDigits(a, b, c, d); }
    }
  }

  lemma OctetsAre(a: int, b: int, c: int, d: int)
    requires 0 <= a < 64 && 0 <= b < 64
    ensures Octets(a, b, c, d).0 == a * 4 + b / 16
    ensures 0 <= c < 64 ==> Octets(a, b, c, d).1 == b % 16 * 16 + c / 4
    ensures 0 <= c < 64 && 0 <= d < 64 ==> Octets(a, b, c, d).2 == c % 4 * 64 + d
  {
    Narrow(a * 4);
    assert 0 <= b / 16 < 4;
    Narrow(a * 4 + b / 16);
    if 0 <= c < 64 {
      assert 0 <= c / 4 < 16 && 0 <= b % 16 < 16;
      Narrow(b % 16 * 16 + c / 4);
      if 0 <= d < 64 {
        assert 0 <= c % 4 < 4;
        Narrow(c % 4 * 64 + d);
      }
    }
  }

  lemma Narrow(x: int)
    requires 0 <= x < 0x100
    ensures x % 0x100 == x
  {
  }

  lemma TripleDigits(a: int, b: int, c: int, d: int)
    requires 0 <= a < 64 && 0 <= b < 64 && 0 <= c < 64 && 0 <= d < 64
    ensures Triple(a, b, c, d) == [a * 4 + b / 16, b % 16 * 16 + c / 4, c % 4 * 64 + d]
  {
    var n := ((a * 0x40 + b) * 0x40 + c) * 0x40 + d;
    var x, y, z := a * 4 + b / 16, b % 16 * 16 + c / 4, c % 4 * 64 + d;
    assert n == (x * 0x100 + y) * 0x100 + z;
    EightBits(x * 0x100 + y, z);
    EightBits(x, y);
    assert n / 0x10000 == n / 0x100 / 0x100;
  }

  lemma EightBits(high: nat, low: nat)
    requires low < 0x100
    ensures (high * 0x100 + low) / 0x100 == high && (high * 0x100 + low) % 0x100 == low
  {
  }

  /** Replaces four characters by their sextets and puts the first `count` bytes together. */
  method ReadBytes(four: array<Byte>, count: nat) returns (ret: seq<Byte>)
    requires four.Length == 4 && count <= 3 && AllSymbols(four[..count + 1])
    modifies four
    ensures ret == Decoding(old(four[..count + 1]))
  {
    ghost var s := four[..];
    for j := 0 to 4
      invariant forall k :: 0 <= k < j ==> four[k] == Find(s[k])
      invariant forall k :: j <= k < 4 ==> four[k] == s[k]
    {
      four[j] := Find(four[j]);
    }
    var x := Octets(four[0], four[1], four[2], four[3]);
    ghost var want := Decoding(s[..count + 1]);
    ShortDecoding(s, count);
    hide Octets, Decoding, Find;
    ret := [];
    for j := 0 to count
      invariant |want| == count && ret == want[..j]
    {
      ret := ret + [if j == 0 then x.0 else if j == 1 then x.1 else x.2];
    }
  }

  lemma ShortDecoding(s: seq<Byte>, count: nat)
    requires |s| == 4 && count <= 3 && AllSymbols(s[..count + 1])
    ensures var x := Octets(Find(s[0]), Find(s[1]), Find(s[2]), Find(s[3]));
      && |Decoding(s[..count + 1])| == count
      && (0 < count ==> Decoding(s[..count + 1])[0] == x.0)
      && (1 < count ==> Decoding(s[..count + 1])[1] == x.1)
      && (2 < count ==> Decoding(s[..count + 1])[2] == x.2)
  {
    hide Octets, Triple, Find;
    var t := s[..count + 1];
    assert forall k :: 0 <= k <= count ==> t[k] == s[k];
    assert IsBase64(t[0]);
    if 0 < count {
      assert IsBase64(t[1]);
      OctetsOfTriple(Find(s[0]), Find(s[1]), Find(s[2]), Find(s[3]));
      TripleSame(Find(s[0]), Find(s[1]), Find(s[2]), Find(s[3]), count);
    }
    if count == 3 {
      assert t[4..] == [];
      assert Decoding([]) == [];
    }
  }

  lemma TripleSame(a: int, b: int, c: int, d: int, count: nat)
    requires 0 <= a < 64 && 0 <= b < 64 && (1 < count ==> 0 <= c < 64)
    ensures 1 < count ==> Triple(a, b, c, 0)[0] == Triple(a, b, 0, 0)[0]
  {
    TripleDigits(a, b, 0, 0);
    if 1 < count { TripleDigits(a, b, c, 0); }
  }

  method Base64Decode(input: seq<Byte>) returns (ret: seq<Byte>)
    ensures ret == Decoding(Body(input))
  {
    hide Find, Decoding;
    ghost var body := Body(input);
    BodyIsPrefix(input);
    DecodingOfNothing();
    ret := [];
    var four := new Byte[4](_ => 0);
    var i, n := 0, 0;
    ghost var done := 0;
    while n < |input| && input[n] != PAD && IsBase64(input[n])
      invariant 0 <= i < 4 && done == n - i && done >= 0 && done % 4 == 0
      invariant n <= |body|
      invariant forall k :: 0 <= k < i ==> four[k] == body[done + k]
      invariant ret == Decoding(body[..done])
    {
      four[i] := input[n];
      i := i + 1;
      n := n + 1;
      if i == 4 {
        assert four[..4] == body[done..done + 4];
        var bytes := ReadBytes(four, 3);
        DecodingAppends(body[..done], body[done..done + 4]);
        assert body[..done + 4] == body[..done] + body[done..done + 4];
        ret := ret + bytes;
        i := 0;
        done := done + 4;
      }
    }
    assert n == |body|;
    DecodingAppends(body[..done], body[done..]);
    assert body == body[..done] + body[done..];
    if i != 0 {
      assert body[done..] == four[..i];
      for j := i to 4
        invariant forall k :: 0 <= k < i ==> four[k] == body[done + k]
      {
        four[j] := 0;
      }
      assert body[done..] == four[..i];
      var bytes := ReadBytes(four, i - 1);
      ret := ret + bytes;
    }
  }

  lemma DecodingOfNothing()
    ensures Decoding([]) == []
  {
  }

  lemma {:induction false} BodyIsPrefix(s: seq<Byte>)
    ensures Body(s) <= s
    ensures |Body(s)| < |s| ==> s[|Body(s)|] == PAD || !IsBase64(s[|Body(s)|])
  {
    if s != [] && s[0] != PAD && IsBase64(s[0]) {
      BodyIsPrefix(s[1..]);
    }
  }

  /** Decoding works group by group. */
  lemma {:induction false} DecodingAppends(a: seq<Byte>, b: seq<Byte>)
    requires |a| % 4 == 0 && AllSymbols(a) && AllSymbols(b)
    ensures AllSymbols(a + b) && Decoding(a + b) == Decoding(a) + Decoding(b)
    decreases |a|
  {
    hide Find, Triple;
    if a == [] {
      assert a + b == b;
    } else {
      assert (a + b)[4..] == a[4..] + b;
      DecodingAppends(a[4..], b);
    }
  }

  // ---------------------------------------------------------------------------
  // The round trip
  // ---------------------------------------------------------------------------

  lemma QuadIsSymbols(n: int, k: nat)
    requires 0 <= n < 0x100_0000 && k <= 4
    ensures AllSymbols(Quad(n)[..k])
    ensures forall i :: 0 <= i < 4 ==> Quad(n)[i] != PAD
    ensures Find(Quad(n)[0]) == n / 0x40000 && Find(Quad(n)[1]) == n / 0x1000 % 0x40
    ensures Find(Quad(n)[2]) == n / 0x40 % 0x40 && Find(Quad(n)[3]) == n % 0x40
  {
    SymbolTable(n / 0x40000);
    SymbolTable(n / 0x1000 % 0x40);
    SymbolTable(n / 0x40 % 0x40);
    SymbolTable(n % 0x40);
    hide Find, Symbol, IsBase64;
  }

  /** A group of bytes survives its four sextets. */
  lemma GroupSurvives(a: Byte, b: Byte, c: Byte)
    ensures var n := Group(a, b, c);
      Triple(n / 0x40000, n / 0x1000 % 0x40, n / 0x40 % 0x40, n % 0x40) == [a, b, c]
  {
    hide Sextets;
    var x := Sextets(a, b, c);
    SextetsOfGroup(a, b, c);
    SextetRange(a, b, c);
    var u: int, v: int, w: int := a, b, c;
    EightBits(u * 0x100 + v, w);
    EightBits(u, v);
    assert ((x.0 * 0x40 + x.1) * 0x40 + x.2) * 0x40 + x.3 == (u * 0x100 + v) * 0x100 + w;
    assert ((u * 0x100 + v) * 0x100 + w) / 0x10000 == u;
  }

  lemma {:induction false} BodyAppends(a: seq<Byte>, b: seq<Byte>)
    requires AllSymbols(a) && PAD !in a
    ensures Body(a + b) == a + Body(b)
  {
    hide IsBase64;
    if a == [] {
      assert a + b == b;
    } else {
      assert IsBase64((a + b)[0]) && (a + b)[0] != PAD;
      assert (a + b)[1..] == a[1..] + b;
      BodyAppends(a[1..], b);
    }
  }

  lemma BodyOfPads(n: nat)
    ensures Body(Pads(n)) == []
  {
  }

  /** What the last group contributes: one, two or three bytes. */
  lemma LastGroup(a: Byte, b: Byte, c: Byte, k: nat)
    requires 1 <= k <= 3 && (k < 3 ==> c == 0) && (k < 2 ==> b == 0)
    ensures AllSymbols(Quad(Group(a, b, c))[..k + 1])
    ensures Decoding(Quad(Group(a, b, c))[..k + 1]) == [a, b, c][..k]
  {
    var n := Group(a, b, c);
    var q := Quad(n);
    QuadIsSymbols(n, k + 1);
    GroupSurvives(a, b, c);
    ShortDecoding(q, k);
    var x := Sextets(a, b, c);
    SextetsOfGroup(a, b, c);
    SextetRange(a, b, c);
    OctetsOfTriple(x.0, x.1, x.2, x.3);
    hide Decoding, Quad, Group, Find, Triple, Octets, Sextets;
  }

  /** Decoding what was encoded gives the bytes back. */
  lemma {:induction false} DecodingOfEncoding(s: seq<Byte>)
    ensures Decoding(Body(Encoding(s))) == s
    decreases |s|
  {
    hide Quad, Group, Decoding, Find, IsBase64;
    DecodingOfNothing();
    if s != [] {
      var k := if |s| >= 3 then 3 else |s|;
      var a, b, c := s[0], if k < 2 then 0 else s[1], if k < 3 then 0 else s[2];
      var q := Quad(Group(a, b, c))[..k + 1];
      var rest := if k < 3 then Pads(3 - k) else Encoding(s[3..]);
      assert Encoding(s) == q + rest;
      LastGroup(a, b, c, k);
      QuadIsSymbols(Group(a, b, c), k + 1);
      BodyAppends(q, rest);
      if k < 3 {
        BodyOfPads(3 - k);
        assert q + [] == q;
      } else {
        DecodingOfEncoding(s[3..]);
        DecodingAppends(q, Body(rest));
      }
    }
  }

  lemma {:induction false} EncodingLength(s: seq<Byte>)
    ensures |Encoding(s)| == 4 * ((|s| + 2) / 3)
    decreases |s|
  {
    if |s| >= 3 {
      EncodingLength(s[3..]);
      assert (|s| + 2) / 3 == (|s| - 3 + 2) / 3 + 1;
    }
  }

  /** Both loops one after the other. */
  method EncodeThenDecode(s: seq<Byte>) returns (encoded: seq<Byte>, decoded: seq<Byte>)
    ensures decoded == s && |encoded| == 4 * ((|s| + 2) / 3)
  {
    encoded := Base64Encode(s);
    decoded := Base64Decode(encoded);
    DecodingOfEncoding(s);
    EncodingLength(s);
  }

  // ---------------------------------------------------------------------------
  // The alphabet and the groups, letter by letter
  // ---------------------------------------------------------------------------

  /** Table 1 of section 4: A to Z, a to z, 0 to 9, + and /. */
  lemma Alphabet(i: int)
    requires 0 <= i < 64
    ensures Symbol(i) as char ==
      if i < 26 then 'A' + i as char
      else if i < 52 then 'a' + (i - 26) as char
      else if i < 62 then '0' + (i - 52) as char
      else if i == 62 then '+' else '/'
  {
  }

  /** A character is found at its place in the alphabet, and any other nowhere. */
  lemma FoundIff(c: Byte, i: Byte)
    requires i < 64
    ensures Find(c) == i <==> Symbol(i as int) == c
    ensures Find(c) == 255 <==> forall k :: 0 <= k < 64 ==> Symbol(k) != c
  {
    SymbolTable(i as int);
    if Find(c) < 64 {
      assert Symbol(Find(c) as int) == c;
    } else {
      forall k | 0 <= k < 64 ensures Symbol(k) != c {
        SymbolTable(k);
      }
    }
  }

  /** Six bits of the first byte, two and four, four and two, and six of the last. */
  function FourSymbols(a: int, b: int, c: int): (r: seq<Byte>)
    requires 0 <= a < 256 && 0 <= b < 256 && 0 <= c < 256
    ensures |r| == 4
  {
    [Symbol(a / 4), Symbol(a % 4 * 16 + b / 16), Symbol(b % 16 * 4 + c / 64), Symbol(c % 64)]
  }

  lemma GroupSymbols(a: Byte, b: Byte, c: Byte)
    ensures Quad(Group(a, b, c)) == FourSymbols(a, b, c)
  {
    SextetsOfGroup(a, b, c);
    hide Group, Symbol;
  }

  /** Three bytes become four symbols of six bits each. */
  lemma GroupEncodes(s: seq<Byte>)
    requires |s| >= 3
    ensures Encoding(s) == FourSymbols(s[0], s[1], s[2]) + Encoding(s[3..])
  {
    GroupSymbols(s[0], s[1], s[2]);
    hide Group, Quad, FourSymbols;
  }

  /** What is missing of the last group is marked with "=". */
  lemma RestEncodes(s: seq<Byte>)
    ensures s == [] ==> Encoding(s) == []
    ensures |s| == 1 ==> Encoding(s) == FourSymbols(s[0], 0, 0)[..2] + ['=' as Byte, '=' as Byte]
    ensures |s| == 2 ==> Encoding(s) == FourSymbols(s[0], s[1], 0)[..3] + ['=' as Byte]
  {
    if |s| == 1 {
      GroupSymbols(s[0], 0, 0);
    } else if |s| == 2 {
      GroupSymbols(s[0], s[1], 0);
    }
    hide Group, Quad, FourSymbols;
  }

  /** Four symbols give three bytes. */
  lemma GroupDecodes(s: seq<Byte>)
    requires |s| >= 4 && AllSymbols(s)
    ensures var a: int, b: int, c: int, d: int := Find(s[0]), Find(s[1]), Find(s[2]), Find(s[3]);
      Decoding(s) == ThreeBytes(a, b, c, d) + Decoding(s[4..])
  {
    TripleIs(Find(s[0]), Find(s[1]), Find(s[2]), Find(s[3]));
    hide Triple, Find, ThreeBytes;
  }

  /** A rest of two symbols gives one byte, one of three two, and one alone nothing. */
  lemma RestDecodes(s: seq<Byte>)
    requires |s| <= 3 && AllSymbols(s)
    ensures Decoding(s) ==
      if |s| <= 1 then []
      else if |s| == 2 then ThreeBytes(Find(s[0]), Find(s[1]), 0, 0)[..1]
      else ThreeBytes(Find(s[0]), Find(s[1]), Find(s[2]), 0)[..2]
  {
    if |s| == 2 {
      TripleIs(Find(s[0]), Find(s[1]), 0, 0);
    } else if |s| == 3 {
      TripleIs(Find(s[0]), Find(s[1]), Find(s[2]), 0);
    }
    hide Triple, Find, ThreeBytes;
  }

  /** Six bits and two, four and four, two and six. */
  function ThreeBytes(a: int, b: int, c: int, d: int): (r: seq<Byte>)
    requires 0 <= a < 64 && 0 <= b < 64 && 0 <= c < 64 && 0 <= d < 64
    ensures |r| == 3
  {
    [a * 4 + b / 16, b % 16 * 16 + c / 4, c % 4 * 64 + d]
  }

  lemma TripleIs(a: int, b: int, c: int, d: int)
    requires 0 <= a < 64 && 0 <= b < 64 && 0 <= c < 64 && 0 <= d < 64
    ensures Triple(a, b, c, d) == ThreeBytes(a, b, c, d)
  {
    Halves(b, 16);
    Halves(c, 4);
    TripleOf(a, b / 16, b % 16, c / 4, c % 4, d);
    hide Triple;
  }

  lemma Halves(x: int, k: int)
    requires 0 <= x < 64 && (k == 16 || k == 4)
    ensures x == x / k * k + x % k && 0 <= x % k < k && 0 <= x / k && x / k * k < 64
  {
  }

  lemma TripleOf(a: int, b1: int, b0: int, c1: int, c0: int, d: int)
    requires 0 <= a < 64 && 0 <= b1 < 4 && 0 <= b0 < 16 && 0 <= c1 < 16 && 0 <= c0 < 4 && 0 <= d < 64
    ensures Triple(a, b1 * 16 + b0, c1 * 4 + c0, d) == [a * 4 + b1, b0 * 16 + c1, c0 * 64 + d]
  {
    Regrouped(a, b1, b0, c1, c0, d);
    BytesOf(a * 4 + b1, b0 * 16 + c1, c0 * 64 + d);
  }

  lemma Regrouped(a: int, b1: int, b0: int, c1: int, c0: int, d: int)
    ensures ((a * 0x40 + (b1 * 16 + b0)) * 0x40 + (c1 * 4 + c0)) * 0x40 + d ==
      (a * 4 + b1) * 0x10000 + (b0 * 16 + c1) * 0x100 + (c0 * 64 + d)
  {
  }

  lemma BytesOf(x: int, y: int, z: int)
    requires 0 <= x && 0 <= y < 256 && 0 <= z < 256
    ensures var n := x * 0x10000 + y * 0x100 + z; n / 0x10000 == x && n / 0x100 % 0x100 == y && n % 0x100 == z
  {
    var n := x * 0x10000 + y * 0x100 + z;
    assert n / 0x100 == x * 0x100 + y;
  }

  /** What is decoded ends before the first character outside the alphabet, "=" among them. */
  lemma {:induction false} BodyIs(s: seq<Byte>)
    ensures var n := |Body(s)|;
      && n <= |s| && Body(s) == s[..n]
      && (forall i :: 0 <= i < n ==> Find(s[i]) < 64)
      && (n < |s| ==> Find(s[n]) == 255)
  {
    hide Find, IsBase64;
    assert !IsBase64('=' as Byte) by { EqualsIsNoSymbol(); }
    if s != [] && IsBase64(s[0]) {
      BodyIs(s[1..]);
      var n := |Body(s[1..])|;
      assert s[..n + 1] == [s[0]] + s[1..][..n];
    }
  }

  lemma EqualsIsNoSymbol()
    ensures !IsBase64('=' as Byte)
  {
  }

  /** Test vectors of section 10: "f", "fo" and "foo". */
  lemma Vectors()
    ensures Encoding([102]) == [90, 103, 61, 61]
    ensures Encoding([102, 111]) == [90, 109, 56, 61]
    ensures Encoding([102, 111, 111]) == [90, 109, 57, 118]
  {
    RestEncodes([102]);
    RestEncodes([102, 111]);
    GroupEncodes([102, 111, 111]);
    hide Encoding;
    RestEncodes([102, 111, 111][3..]);
  }
}
