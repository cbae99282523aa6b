/**
 The WebSocket frame header: a two-byte basic part, a variable part of up to twelve bytes,
 the string both are written to, and the readers (section 5.2 of RFC 6455).
 */
module FrameHeader {
  import opened MachineWords

  const FIN: bv8 := 0x80
  const RSV1: bv8 := 0x40
  const RSV2: bv8 := 0x20
  const RSV3: bv8 := 0x10
  const OPCODE: bv8 := 0x0F
  const MASK: bv8 := 0x80
  const PAYLOAD: bv8 := 0x7F

  const PAYLOAD_SIZE_BASIC: bv64 := 125
  const PAYLOAD_SIZE_EXTENDED: bv64 := 0xFFFF
  const CODE_16BIT: bv8 := 0x7E
  const CODE_64BIT: bv8 := 0x7F

  const MAX_EXTENDED_HEADER_LENGTH: nat := 12

  // ---------------------------------------------------------------------------
  // Readers
  // ---------------------------------------------------------------------------

  predicate GetFin(b0: bv8) { b0 & FIN == FIN }
  predicate GetRsv1(b0: bv8) { b0 & RSV1 == RSV1 }
  predicate GetRsv2(b0: bv8) { b0 & RSV2 == RSV2 }
  predicate GetRsv3(b0: bv8) { b0 & RSV3 == RSV3 }
  function GetOpcode(b0: bv8): bv8 { b0 & OPCODE }
  predicate GetMasked(b1: bv8) { b1 & MASK == MASK }
  function GetBasicSize(b1: bv8): bv8 { b1 & PAYLOAD }

  function GetMaskingKeyOffset(b1: bv8): (n: nat)
    ensures n <= 8
  {
    if GetBasicSize(b1) == CODE_16BIT then 2 else if GetBasicSize(b1) == CODE_64BIT then 8 else 0
  }

  function GetHeaderLen(b1: bv8): (n: nat)
    ensures 2 <= n <= 14
  {
    2 + GetMaskingKeyOffset(b1) + if GetMasked(b1) then 4 else 0
  }

  /** The twelve bytes of an extended header. */
  type Extended = e: seq<bv8> | |e| == MAX_EXTENDED_HEADER_LENGTH witness seq(12, _ => 0)

  function GetMaskingKey(b1: bv8, e: Extended): seq<bv8> {
    if GetMasked(b1) then e[GetMaskingKeyOffset(b1)..GetMaskingKeyOffset(b1) + 4] else [0, 0, 0, 0]
  }

  function Join64(a: bv8, b: bv8, c: bv8, d: bv8, e: bv8, f: bv8, g: bv8, h: bv8): bv64 {
    ((a as bv64) << 56) | ((b as bv64) << 48) | ((c as bv64) << 40) | ((d as bv64) << 32)
    | ((e as bv64) << 24) | ((f as bv64) << 16) | ((g as bv64) << 8) | (h as bv64)
  }

  function GetExtendedSize(e: Extended): bv64 { Join64(0, 0, 0, 0, 0, 0, e[0], e[1]) }

  function GetJumboSize(e: Extended): bv64 { Join64(e[0], e[1], e[2], e[3], e[4], e[5], e[6], e[7]) }

  function GetPayloadSize(b1: bv8, e: Extended): bv64 {
    var val := GetBasicSize(b1);
    if val <= 125 then val as bv64 else if val == CODE_16BIT then GetExtendedSize(e) else GetJumboSize(e)
  }

  /** Which of the three length forms section 5.2 asks for: always the shortest that fits. */
  function SizeCode(size: bv64): bv8 {
    if size <= PAYLOAD_SIZE_BASIC then (size & 0xFF) as bv8
    else if size <= PAYLOAD_SIZE_EXTENDED then CODE_16BIT
    else CODE_64BIT
  }

  // ---------------------------------------------------------------------------
  // Construction
  // ---------------------------------------------------------------------------

  datatype Fields = Fields(op: bv8, size: bv64, fin: bool, masked: bool, rsv1: bool, rsv2: bool, rsv3: bool)

  /** The two header bytes read back as the fields they were made from. */
  ghost predicate FirstByteReads(b0: bv8, f: Fields) {
    && GetFin(b0) == f.fin
    && GetRsv1(b0) == f.rsv1
    && GetRsv2(b0) == f.rsv2
    && GetRsv3(b0) == f.rsv3
    && GetOpcode(b0) == f.op & OPCODE
  }

  ghost predicate SecondByteReads(b1: bv8, f: Fields) {
    GetMasked(b1) == f.masked && GetBasicSize(b1) == SizeCode(f.size)
  }

  function Flags(f: Fields): bv8 {
    (if f.fin then FIN else 0) | (if f.rsv1 then RSV1 else 0) | (if f.rsv2 then RSV2 else 0) |
      (if f.rsv3 then RSV3 else 0)
  }

  lemma FlagsRead(x: bv8, f: Fields)
    requires x == Flags(f)
    ensures FirstByteReads(x | (f.op & OPCODE), f)
  {
    if f.fin {
      if f.rsv1 { if f.rsv2 {} else {} } else { if f.rsv2 {} else {} }
    } else {
      if f.rsv1 { if f.rsv2 {} else {} } else { if f.rsv2 {} else {} }
    }
  }

  lemma SizeCodeBits(size: bv64)
    ensures SizeCode(size) & PAYLOAD == SizeCode(size)
  {
  }

  lemma MaskBitReads(y: bv8, code: bv8)
    requires (y == 0 || y == MASK) && code & PAYLOAD == code
    ensures GetMasked(y | code) == (y == MASK) && GetBasicSize(y | code) == code
  {
  }

  // ---------------------------------------------------------------------------
  // The bits of section 5.2, written out
  // ---------------------------------------------------------------------------

  /** FIN, RSV1, RSV2, RSV3 and four bits of opcode, most significant first. */
  predicate FirstOctet(b0: bv8, f: Fields) {
    && (b0 & 0x80 != 0) == f.fin
    && (b0 & 0x40 != 0) == f.rsv1
    && (b0 & 0x20 != 0) == f.rsv2
    && (b0 & 0x10 != 0) == f.rsv3
    && b0 & 0x0F == f.op & 0x0F
  }

  /** The mask bit, and the length itself up to 125, 126 for two more bytes, 127 for eight. */
  predicate SecondOctet(b1: bv8, f: Fields) {
    && (b1 & 0x80 != 0) == f.masked
    && b1 & 0x7F == if f.size <= 125 then (f.size & 0x7F) as bv8 else if f.size <= 0xFFFF then 126 else 127
  }

  /** The base-256 digits of the size, most significant first: none, two or eight. */
  function SizeDigits(size: bv64): seq<bv8> {
    var d0, d1 := (size & 0xFF) as bv8, ((size >> 8) & 0xFF) as bv8;
    if size <= 125 then []
    else if size <= 0xFFFF then [d1, d0]
    else
      var d2, d3 := ((size >> 16) & 0xFF) as bv8, ((size >> 24) & 0xFF) as bv8;
      var d4, d5 := ((size >> 32) & 0xFF) as bv8, ((size >> 40) & 0xFF) as bv8;
      var d6, d7 := ((size >> 48) & 0xFF) as bv8, ((size >> 56) & 0xFF) as bv8;
      [d7, d6, d5, d4, d3, d2, d1, d0]
  }

  /** A whole header as section 5.2 draws it. */
  predicate Drawn(header: seq<bv8>, f: Fields, key: MaskingKey) {
    && |header| >= 2
    && FirstOctet(header[0], f)
    && SecondOctet(header[1], f)
    && header[2..] == SizeDigits(f.size) + if f.masked then key else []
  }

  lemma FlagBits(b0: bv8, f: Fields)
    requires FirstByteReads(b0, f)
    ensures FirstOctet(b0, f)
  {
  }

  lemma LengthBits(b1: bv8, f: Fields)
    requires SecondByteReads(b1, f)
    ensures SecondOctet(b1, f)
  {
    hide GetMasked;
    SmallSize(f.size);
    MaskBit(b1);
  }

  lemma SmallSize(size: bv64)
    ensures size <= 125 ==> (size & 0xFF) as bv8 == (size & 0x7F) as bv8
  {
  }

  lemma MaskBit(b1: bv8)
    ensures GetMasked(b1) <==> b1 & 0x80 != 0
  {
  }

  lemma SizeFieldIsDigits(size: bv64)
    ensures SizeField(size) == SizeDigits(size)
  {
    var w := Octets64(size);
    assert w == [w[0], w[1], w[2], w[3], w[4], w[5], w[6], w[7]];
    assert w[6..] == [w[6], w[7]];
  }

  class BasicHeader {
    var b0: bv8
    var b1: bv8

    constructor (f: Fields)
      ensures FirstByteReads(b0, f) && SecondByteReads(b1, f)
      ensures FirstOctet(b0, f) && SecondOctet(b1, f)
    {
      hide GetFin, GetRsv1, GetRsv2, GetRsv3, GetOpcode, GetMasked, GetBasicSize;
      var x: bv8 := 0;
      if f.fin { x := x | FIN; }
      if f.rsv1 { x := x | RSV1; }
      if f.rsv2 { x := x | RSV2; }
      if f.rsv3 { x := x | RSV3; }
      FlagsRead(x, f);
      x := x | (f.op & OPCODE);
      var y: bv8 := 0;
      if f.masked { y := y | MASK; }
      var basicValue;
      if f.size <= PAYLOAD_SIZE_BASIC {
        basicValue := (f.size & 0xFF) as bv8;
      } else if f.size <= PAYLOAD_SIZE_EXTENDED {
        basicValue := CODE_16BIT;
      } else {
        basicValue := CODE_64BIT;
      }
      SizeCodeBits(f.size);
      MaskBitReads(y, basicValue);
      y := y | basicValue;
      FlagBits(x, f);
      LengthBits(y, f);
      b0, b1 := x, y;
    }

    method SetFin(value: bool)
      modifies `b0
      ensures GetFin(b0) == value && b0 & 0x7F == old(b0) & 0x7F
    {
      b0 := if value then b0 | FIN else b0 & 0x7F;
    }

    method SetRsv1(value: bool)
      modifies `b0
      ensures GetRsv1(b0) == value && b0 & 0xBF == old(b0) & 0xBF
    {
      b0 := if value then b0 | RSV1 else b0 & 0xBF;
    }

    method SetRsv2(value: bool)
      modifies `b0
      ensures GetRsv2(b0) == value && b0 & 0xDF == old(b0) & 0xDF
    {
      b0 := if value then b0 | RSV2 else b0 & 0xDF;
    }

    method SetRsv3(value: bool)
      modifies `b0
      ensures GetRsv3(b0) == value && b0 & 0xEF == old(b0) & 0xEF
    {
      b0 := if value then b0 | RSV3 else b0 & 0xEF;
    }

    method SetMasked(value: bool)
      modifies `b1
      ensures GetMasked(b1) == value && GetBasicSize(b1) == GetBasicSize(old(b1))
    {
      b1 := if value then b1 | MASK else b1 & 0x7F;
    }
  }

  /** The size in network byte order, in as many bytes as its length form needs. */
  function SizeField(size: bv64): (r: seq<bv8>)
    ensures |r| == 0 || |r| == 2 || |r| == 8
  {
    if size <= PAYLOAD_SIZE_BASIC then [] else if size <= PAYLOAD_SIZE_EXTENDED then Octets64(size)[6..]
      else Octets64(size)
  }

  class ExtendedHeader {
    const bytes: array<bv8>

    ghost predicate Valid()
    {
      bytes.Length == MAX_EXTENDED_HEADER_LENGTH
    }

    /** A header without a masking key. */
    constructor Unmasked(payloadSize: bv64)
      ensures Valid() && fresh(bytes)
      ensures bytes[..] == SizeField(payloadSize) + Zeros(12 - |SizeField(payloadSize)|)
    {
      bytes := new bv8[MAX_EXTENDED_HEADER_LENGTH](_ => 0);
      new;
      var _ := CopyPayload(payloadSize);
    }

    constructor Masked(payloadSize: bv64, maskingKey: MaskingKey)
      ensures Valid() && fresh(bytes)
      ensures bytes[..] == SizeField(payloadSize) + maskingKey + Zeros(8 - |SizeField(payloadSize)|)
    {
      bytes := new bv8[MAX_EXTENDED_HEADER_LENGTH](_ => 0);
      new;
      var offset := CopyPayload(payloadSize);
      forall i | offset <= i < offset + 4 {
        bytes[i] := maskingKey[i - offset];
      }
    }

    method CopyPayload(payloadSize: bv64) returns (offset: nat)
      requires Valid() && forall i :: 0 <= i < bytes.Length ==> bytes[i] == 0
      modifies bytes
      ensures offset == |SizeField(payloadSize)|
      ensures bytes[..] == SizeField(payloadSize) + Zeros(12 - offset)
    {
      hide Octets64;
      var payloadOffset := 0;
      if payloadSize <= PAYLOAD_SIZE_BASIC {
        payloadOffset := 8;
      } else if payloadSize <= PAYLOAD_SIZE_EXTENDED {
        payloadOffset := 6;
      }
      var network := Octets64(payloadSize);
      forall i | 0 <= i < 8 - payloadOffset {
        bytes[i] := network[payloadOffset + i];
      }
      offset := 8 - payloadOffset;
    }
  }

  /** Both parts of a header in one string of exactly the header's length. */
  method PrepareHeader(h: BasicHeader, e: ExtendedHeader) returns (ret: seq<bv8>)
    requires e.Valid()
    ensures |ret| == GetHeaderLen(h.b1) && ret[0] == h.b0 && ret[1] == h.b1
    ensures ret[2..] <= e.bytes[..]
  {
    ret := [];
    ret := ret + [h.b0];
    ret := ret + [h.b1];
    ret := ret + e.bytes[..GetHeaderLen(h.b1) - 2];
  }

  // ---------------------------------------------------------------------------
  // Reading a header back
  // ---------------------------------------------------------------------------

  /** The extended header a receiver fills in from the bytes after the first two. */
  function ReceivedExtended(stream: seq<bv8>): Extended
    requires |stream| >= 2 && |stream| >= GetHeaderLen(stream[1])
  {
    stream[2..GetHeaderLen(stream[1])] + Zeros(14 - GetHeaderLen(stream[1]))
  }

  /** The first `n` bytes of the stream are a header with these fields and this key. */
  ghost predicate ReadsAs(stream: seq<bv8>, n: nat, f: Fields, key: MaskingKey) {
    && 2 <= n <= |stream|
    && n == GetHeaderLen(stream[1])
    && FirstByteReads(stream[0], f)
    && GetMasked(stream[1]) == f.masked
    && GetPayloadSize(stream[1], ReceivedExtended(stream)) == f.size
    && GetMaskingKey(stream[1], ReceivedExtended(stream)) == if f.masked then key else [0, 0, 0, 0]
  }

  /** Section 5.2: no header with the same mask bit that reads as the same size is shorter. */
  ghost predicate ShortestForm(n: nat, f: Fields) {
    forall b1: bv8, e: Extended :: GetMasked(b1) == f.masked && GetPayloadSize(b1, e) == f.size ==>
      n <= GetHeaderLen(b1)
  }

  lemma JumboSizeReads(size: bv64)
    ensures Join64(Octet64(size, 0), Octet64(size, 1), Octet64(size, 2), Octet64(size, 3),
                   Octet64(size, 4), Octet64(size, 5), Octet64(size, 6), Octet64(size, 7)) == size
  {
  }

  lemma ExtendedSizeReads(size: bv64)
    requires size <= PAYLOAD_SIZE_EXTENDED
    ensures Join64(0, 0, 0, 0, 0, 0, Octet64(size, 6), Octet64(size, 7)) == size
  {
  }

  lemma BasicSizeReads(size: bv64)
    requires size <= PAYLOAD_SIZE_BASIC
    ensures (size & 0xFF) as bv8 <= 125 && ((size & 0xFF) as bv8) as bv64 == size
  {
  }

  /** The length form found in the second byte tells where the key is and what the size is. */
  lemma SizeReads(b1: bv8, f: Fields, e: Extended)
    requires SecondByteReads(b1, f) && SizeField(f.size) <= e
    ensures GetMasked(b1) == f.masked
    ensures GetMaskingKeyOffset(b1) == |SizeField(f.size)|
    ensures GetHeaderLen(b1) == 2 + |SizeField(f.size)| + if f.masked then 4 else 0
    ensures GetPayloadSize(b1, e) == f.size
  {
    hide GetBasicSize, GetMasked, Octet64, Join64;
    if f.size <= PAYLOAD_SIZE_BASIC {
      BasicSizeReads(f.size);
    } else if f.size <= PAYLOAD_SIZE_EXTENDED {
      ExtendedSizeReads(f.size);
      assert e[0] == SizeField(f.size)[0] && e[1] == SizeField(f.size)[1];
    } else {
      JumboSizeReads(f.size);
      assert forall i :: 0 <= i < 8 ==> e[i] == SizeField(f.size)[i];
    }
  }

  /** A receiver's extended header agrees with the sender's on every byte that was sent. */
  lemma ReceivedAgrees(b0: bv8, b1: bv8, e: Extended, rest: seq<bv8>)
    ensures var n := GetHeaderLen(b1);
      var stream := [b0, b1] + e[..n - 2] + rest;
      stream[0] == b0 && stream[1] == b1 && n <= |stream| && ReceivedExtended(stream)[..n - 2] == e[..n - 2]
  {
    hide GetHeaderLen;
  }

  lemma PrefixOfPrefix(field: seq<bv8>, a: Extended, b: Extended, n: nat)
    requires |field| <= n <= 12 && field <= a && a[..n] == b[..n]
    ensures field <= b
  {
    assert a[..n][..|field|] == a[..|field|];
    assert b[..n][..|field|] == b[..|field|];
  }

  /** The header is as short as its fields allow. */
  lemma HeaderIsShortest(b1: bv8, f: Fields)
    requires SecondByteReads(b1, f)
    ensures ShortestForm(GetHeaderLen(b1), f)
  {
    forall c1: bv8, e: Extended | GetMasked(c1) == f.masked && GetPayloadSize(c1, e) == f.size
      ensures GetHeaderLen(b1) <= GetHeaderLen(c1)
    {
      FormHoldsSize(c1, e);
    }
    hide GetMasked, GetBasicSize;
  }

  /** What each length form can hold at most. */
  lemma FormHoldsSize(b1: bv8, e: Extended)
    ensures GetMaskingKeyOffset(b1) == 0 ==> GetPayloadSize(b1, e) <= PAYLOAD_SIZE_BASIC
    ensures GetMaskingKeyOffset(b1) == 2 ==> GetPayloadSize(b1, e) <= PAYLOAD_SIZE_EXTENDED
    ensures GetMaskingKeyOffset(b1) in {0, 2, 8}
  {
    TwoBytesHold(e[0], e[1]);
  }

  lemma TwoBytesHold(a: bv8, b: bv8)
    ensures Join64(0, 0, 0, 0, 0, 0, a, b) <= PAYLOAD_SIZE_EXTENDED
  {
  }

  /** A header followed by anything reads back as the fields and key it was made from. */
  lemma HeaderReadsBack(b0: bv8, b1: bv8, f: Fields, key: MaskingKey, e: Extended, rest: seq<bv8>)
    requires FirstByteReads(b0, f) && SecondByteReads(b1, f)
    requires SizeField(f.size) + (if f.masked then key else []) <= e
    ensures ReadsAs([b0, b1] + e[..GetHeaderLen(b1) - 2] + rest, GetHeaderLen(b1), f, key)
  {
    hide FirstByteReads, SecondByteReads, GetBasicSize, GetMasked, GetPayloadSize, SizeField, GetHeaderLen,
      GetMaskingKeyOffset, ReceivedExtended;
    var n := GetHeaderLen(b1);
    var stream := [b0, b1] + e[..n - 2] + rest;
    var received := ReceivedExtended(stream);
    var field := SizeField(f.size);
    ReceivedAgrees(b0, b1, e, rest);
    assert field <= e;
    SizeReads(b1, f, e);
    var sent := field + if f.masked then key else [];
    assert |sent| == n - 2;
    PrefixOfPrefix(sent, e, received, n - 2);
    assert field <= received;
    SizeReads(b1, f, received);
    assert GetMaskingKey(b1, received) == if f.masked then key else [0, 0, 0, 0] by {
      if f.masked {
        KeyReads(received, field, key);
      }
    }
  }

  lemma KeyReads(e: Extended, field: seq<bv8>, key: MaskingKey)
    requires field + key <= e
    ensures e[|field|..|field| + 4] == key
  {
    assert e[|field|..|field| + 4] == (field + key)[|field|..];
  }

  lemma HeaderParts(header: seq<bv8>, e: seq<bv8>)
    requires |header| >= 2 && header[2..] <= e
    ensures header == [header[0], header[1]] + e[..|header| - 2]
  {
    assert header == header[..2] + header[2..];
  }

  lemma HeaderTail(b1: bv8, f: Fields, key: MaskingKey, e: Extended)
    requires SecondByteReads(b1, f) && SizeField(f.size) + (if f.masked then key else []) <= e
    ensures e[..GetHeaderLen(b1) - 2] == SizeField(f.size) + if f.masked then key else []
  {
    hide SecondByteReads, SizeField, GetHeaderLen;
    assert SizeField(f.size) <= e;
    SizeReads(b1, f, e);
  }

  /** Builds a header as the framing code does: both constructors, then the string. */
  method BuildHeader(f: Fields, key: MaskingKey) returns (header: seq<bv8>)
    ensures 2 <= |header| <= 14
    ensures Drawn(header, f, key)
    ensures ShortestForm(|header|, f)
    ensures forall rest :: ReadsAs(header + rest, |header|, f, key)
  {
    hide FirstByteReads, SecondByteReads, ReadsAs, ShortestForm, SizeField, GetHeaderLen, FirstOctet, SecondOctet,
      SizeDigits;
    var h := new BasicHeader(f);
    var e;
    if f.masked {
      e := new ExtendedHeader.Masked(f.size, key);
    } else {
      e := new ExtendedHeader.Unmasked(f.size);
    }
    header := PrepareHeader(h, e);
    ghost var ext := e.bytes[..];
    assert SizeField(f.size) + (if f.masked then key else []) <= ext;
    assert header == [h.b0, h.b1] + ext[..GetHeaderLen(h.b1) - 2] by { HeaderParts(header, ext); }
    HeaderIsShortest(h.b1, f);
    SizeFieldIsDigits(f.size);
    assert header[2..] == SizeField(f.size) + if f.masked then key else [] by {
      HeaderTail(h.b1, f, key, ext);
    }
    forall rest ensures ReadsAs(header + rest, |header|, f, key) {
      HeaderReadsBack(h.b0, h.b1, f, key, ext, rest);
    }
  }
}
