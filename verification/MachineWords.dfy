/**
 Machine words seen as their octets, most significant first. The masking code shifts
 words by whole bytes only, so its size_t arithmetic is stated on octets; the lemmas
 at the end show that the 32-bit and 64-bit operations of the machine are these.
 */
module MachineWords {

  type Word = seq<bv8>

  /** The four bytes of a masking key as they lie in memory: the member `c` of its union. */
  type MaskingKey = key: seq<bv8> | |key| == 4 witness [0, 0, 0, 0]

  function Zeros(n: nat): Word { seq(n, _ => 0 as bv8) }

  function Xor(a: Word, b: Word): (r: Word)
    requires |a| == |b|
    ensures |r| == |a|
  {
    seq(|a|, i requires 0 <= i < |a| => a[i] ^ b[i])
  }

  function Or(a: Word, b: Word): (r: Word)
    requires |a| == |b|
    ensures |r| == |a|
  {
    seq(|a|, i requires 0 <= i < |a| => a[i] | b[i])
  }

  /** w << (8*n) */
  function Shl(w: Word, n: nat): (r: Word)
    requires n <= |w|
    ensures |r| == |w|
  {
    w[n..] + Zeros(n)
  }

  /** w >> (8*n) */
  function Shr(w: Word, n: nat): (r: Word)
    requires n <= |w|
    ensures |r| == |w|
  {
    Zeros(n) + w[..|w| - n]
  }

  /** The bytes of a word in memory; also the word read back from those bytes. */
  function Image(w: Word, little: bool): (r: seq<bv8>)
    ensures |r| == |w|
    ensures forall i :: 0 <= i < |w| ==> r[i] == w[if little then |w| - 1 - i else i]
  {
    seq(|w|, i requires 0 <= i < |w| => w[if little then |w| - 1 - i else i])
  }

  /**
   The prepared key shifted circularly by `offset` bytes, as frame.hpp computes it: one shift
   each way and an OR, the directions depending on the byte order.
   */
  function Circshift(w: Word, offset: nat, little: bool): (r: Word)
    requires offset < |w|
    ensures |r| == |w|
  {
    if offset == 0 then w
    else if little then Or(Shr(w, offset), Shl(w, |w| - offset))
    else Or(Shl(w, offset), Shr(w, |w| - offset))
  }

  /** i reduced modulo n, for i below 2n. */
  function Around(i: nat, n: nat): (r: nat)
    requires i < 2 * n
    ensures r < n
  {
    if i < n then i else i - n
  }

  lemma OrZero(x: bv8)
    ensures x | 0 == x && 0 | x == x
  {
  }

  lemma ShiftsAt(w: Word, n: nat, i: nat)
    requires n <= |w| && i < |w|
    ensures Shl(w, n)[i] == if i + n < |w| then w[i + n] else 0
    ensures Shr(w, n)[i] == if n <= i then w[i - n] else 0
  {
  }

  /** Circular shifting moves every octet by `offset` places. */
  lemma CircshiftAt(w: Word, offset: nat, little: bool, i: nat)
    requires offset < |w| && i < |w|
    ensures Circshift(w, offset, little)[i] == w[Around(if little then i + |w| - offset else i + offset, |w|)]
  {
    hide Shl, Shr;
    if 0 < offset {
      ShiftsAt(w, offset, i);
      ShiftsAt(w, |w| - offset, i);
      OrZero(w[Around(if little then i + |w| - offset else i + offset, |w|)]);
    }
  }

  /** In memory the bytes move towards lower addresses, whatever the byte order. */
  lemma CircshiftImage(w: Word, offset: nat, little: bool, i: nat)
    requires offset < |w| && i < |w|
    ensures Image(Circshift(w, offset, little), little)[i] == Image(w, little)[Around(i + offset, |w|)]
  {
    hide Circshift;
    CircshiftAt(w, offset, little, if little then |w| - 1 - i else i);
  }

  lemma CircshiftAgain(w: Word, offset: nat, little: bool)
    requires 0 < offset && offset + 1 < |w|
    ensures Circshift(Circshift(w, offset, little), 1, little) == Circshift(w, offset + 1, little)
  {
    hide Circshift;
    var n := |w|;
    forall i | 0 <= i < n
      ensures Circshift(Circshift(w, offset, little), 1, little)[i] == Circshift(w, offset + 1, little)[i]
    {
      CircshiftAt(Circshift(w, offset, little), 1, little, i);
      CircshiftAt(w, offset, little, Around(if little then i + n - 1 else i + 1, n));
      CircshiftAt(w, offset + 1, little, i);
    }
  }

  // ---------------------------------------------------------------------------
  // Bit vectors. Shift amounts are written out, one case for each whole byte.
  // ---------------------------------------------------------------------------

  /** The i-th octet of a 32-bit word, counted from the most significant. */
  function Octet32(x: bv32, i: nat): bv8 {
    if i == 0 then ((x >> 24) & 0xFF) as bv8
    else if i == 1 then ((x >> 16) & 0xFF) as bv8
    else if i == 2 then ((x >> 8) & 0xFF) as bv8
    else (x & 0xFF) as bv8
  }

  function Octets32(x: bv32): (w: Word)
    ensures |w| == 4
    ensures forall i :: 0 <= i < 4 ==> w[i] == Octet32(x, i)
  {
    seq(4, i requires 0 <= i < 4 => Octet32(x, i))
  }

  /** (x >> offset*8) | (x << (4-offset)*8) on a little-endian machine, its mirror image on a big-endian one */
  function Circle32(x: bv32, offset: nat, little: bool): bv32
    requires 0 < offset < 4
  {
    if offset == 1 then (if little then (x >> 8) | (x << 24) else (x << 8) | (x >> 24))
    else if offset == 2 then (if little then (x >> 16) | (x << 16) else (x << 16) | (x >> 16))
    else (if little then (x >> 24) | (x << 8) else (x << 24) | (x >> 8))
  }

  lemma Xor32At0(x: bv32, y: bv32) ensures Octet32(x ^ y, 0) == Octet32(x, 0) ^ Octet32(y, 0) {}
  lemma Xor32At1(x: bv32, y: bv32) ensures Octet32(x ^ y, 1) == Octet32(x, 1) ^ Octet32(y, 1) {}
  lemma Xor32At2(x: bv32, y: bv32) ensures Octet32(x ^ y, 2) == Octet32(x, 2) ^ Octet32(y, 2) {}
  lemma Xor32At3(x: bv32, y: bv32) ensures Octet32(x ^ y, 3) == Octet32(x, 3) ^ Octet32(y, 3) {}

  lemma Xor32At(x: bv32, y: bv32, z: bv32, i: nat)
    requires i < 4 && z == x ^ y
    ensures Octet32(z, i) == Octet32(x, i) ^ Octet32(y, i)
  {
    hide Octet32;
    if i == 0 { Xor32At0(x, y); }
    else if i == 1 { Xor32At1(x, y); }
    else if i == 2 { Xor32At2(x, y); }
    else { Xor32At3(x, y); }
  }

  lemma Circle32ByOneUp(x: bv32)
    ensures Octet32(Circle32(x, 1, false), 0) == Octet32(x, 1)
    ensures Octet32(Circle32(x, 1, false), 1) == Octet32(x, 2)
    ensures Octet32(Circle32(x, 1, false), 2) == Octet32(x, 3)
    ensures Octet32(Circle32(x, 1, false), 3) == Octet32(x, 0)
  {
  }

  lemma Circle32ByOneDown(x: bv32)
    ensures Octet32(Circle32(x, 1, true), 1) == Octet32(x, 0)
    ensures Octet32(Circle32(x, 1, true), 2) == Octet32(x, 1)
    ensures Octet32(Circle32(x, 1, true), 3) == Octet32(x, 2)
    ensures Octet32(Circle32(x, 1, true), 0) == Octet32(x, 3)
  {
  }

  lemma Circle32By2(x: bv32, little: bool)
    ensures Circle32(x, 2, little) == Circle32(Circle32(x, 1, little), 1, little) {}
  lemma Circle32By3(x: bv32, little: bool)
    ensures Circle32(x, 3, little) == Circle32(Circle32(x, 2, little), 1, little) {}

  /** The i-th octet of a 64-bit word, counted from the most significant. */
  function Octet64(x: bv64, i: nat): bv8 {
    if i == 0 then ((x >> 56) & 0xFF) as bv8
    else if i == 1 then ((x >> 48) & 0xFF) as bv8
    else if i == 2 then ((x >> 40) & 0xFF) as bv8
    else if i == 3 then ((x >> 32) & 0xFF) as bv8
    else if i == 4 then ((x >> 24) & 0xFF) as bv8
    else if i == 5 then ((x >> 16) & 0xFF) as bv8
    else if i == 6 then ((x >> 8) & 0xFF) as bv8
    else (x & 0xFF) as bv8
  }

  function Octets64(x: bv64): (w: Word)
    ensures |w| == 8
    ensures forall i :: 0 <= i < 8 ==> w[i] == Octet64(x, i)
  {
    seq(8, i requires 0 <= i < 8 => Octet64(x, i))
  }

  /** (x >> offset*8) | (x << (8-offset)*8) on a little-endian machine, its mirror image on a big-endian one */
  function Circle64(x: bv64, offset: nat, little: bool): bv64
    requires 0 < offset < 8
  {
    if offset == 1 then (if little then (x >> 8) | (x << 56) else (x << 8) | (x >> 56))
    else if offset == 2 then (if little then (x >> 16) | (x << 48) else (x << 16) | (x >> 48))
    else if offset == 3 then (if little then (x >> 24) | (x << 40) else (x << 24) | (x >> 40))
    else if offset == 4 then (if little then (x >> 32) | (x << 32) else (x << 32) | (x >> 32))
    else if offset == 5 then (if little then (x >> 40) | (x << 24) else (x << 40) | (x >> 24))
    else if offset == 6 then (if little then (x >> 48) | (x << 16) else (x << 48) | (x >> 16))
    else (if little then (x >> 56) | (x << 8) else (x << 56) | (x >> 8))
  }

  lemma Xor64At0(x: bv64, y: bv64) ensures Octet64(x ^ y, 0) == Octet64(x, 0) ^ Octet64(y, 0) {}
  lemma Xor64At1(x: bv64, y: bv64) ensures Octet64(x ^ y, 1) == Octet64(x, 1) ^ Octet64(y, 1) {}
  lemma Xor64At2(x: bv64, y: bv64) ensures Octet64(x ^ y, 2) == Octet64(x, 2) ^ Octet64(y, 2) {}
  lemma Xor64At3(x: bv64, y: bv64) ensures Octet64(x ^ y, 3) == Octet64(x, 3) ^ Octet64(y, 3) {}
  lemma Xor64At4(x: bv64, y: bv64) ensures Octet64(x ^ y, 4) == Octet64(x, 4) ^ Octet64(y, 4) {}
  lemma Xor64At5(x: bv64, y: bv64) ensures Octet64(x ^ y, 5) == Octet64(x, 5) ^ Octet64(y, 5) {}
  lemma Xor64At6(x: bv64, y: bv64) ensures Octet64(x ^ y, 6) == Octet64(x, 6) ^ Octet64(y, 6) {}
  lemma Xor64At7(x: bv64, y: bv64) ensures Octet64(x ^ y, 7) == Octet64(x, 7) ^ Octet64(y, 7) {}

  lemma Xor64At(x: bv64, y: bv64, z: bv64, i: nat)
    requires i < 8 && z == x ^ y
    ensures Octet64(z, i) == Octet64(x, i) ^ Octet64(y, i)
  {
    hide Octet64;
    if i == 0 { Xor64At0(x, y); }
    else if i == 1 { Xor64At1(x, y); }
    else if i == 2 { Xor64At2(x, y); }
    else if i == 3 { Xor64At3(x, y); }
    else if i == 4 { Xor64At4(x, y); }
    else if i == 5 { Xor64At5(x, y); }
    else if i == 6 { Xor64At6(x, y); }
    else { Xor64At7(x, y); }
  }

  lemma Circle64ByOneUp(x: bv64)
    ensures Octet64(Circle64(x, 1, false), 0) == Octet64(x, 1)
    ensures Octet64(Circle64(x, 1, false), 1) == Octet64(x, 2)
    ensures Octet64(Circle64(x, 1, false), 2) == Octet64(x, 3)
    ensures Octet64(Circle64(x, 1, false), 3) == Octet64(x, 4)
    ensures Octet64(Circle64(x, 1, false), 4) == Octet64(x, 5)
    ensures Octet64(Circle64(x, 1, false), 5) == Octet64(x, 6)
    ensures Octet64(Circle64(x, 1, false), 6) == Octet64(x, 7)
    ensures Octet64(Circle64(x, 1, false), 7) == Octet64(x, 0)
  {
  }

  lemma Circle64ByOneDown(x: bv64)
    ensures Octet64(Circle64(x, 1, true), 1) == Octet64(x, 0)
    ensures Octet64(Circle64(x, 1, true), 2) == Octet64(x, 1)
    ensures Octet64(Circle64(x, 1, true), 3) == Octet64(x, 2)
    ensures Octet64(Circle64(x, 1, true), 4) == Octet64(x, 3)
    ensures Octet64(Circle64(x, 1, true), 5) == Octet64(x, 4)
    ensures Octet64(Circle64(x, 1, true), 6) == Octet64(x, 5)
    ensures Octet64(Circle64(x, 1, true), 7) == Octet64(x, 6)
    ensures Octet64(Circle64(x, 1, true), 0) == Octet64(x, 7)
  {
  }

  lemma Circle64By2(x: bv64, little: bool)
    ensures Circle64(x, 2, little) == Circle64(Circle64(x, 1, little), 1, little) {}
  lemma Circle64By3(x: bv64, little: bool)
    ensures Circle64(x, 3, little) == Circle64(Circle64(x, 2, little), 1, little) {}
  lemma Circle64By4(x: bv64, little: bool)
    ensures Circle64(x, 4, little) == Circle64(Circle64(x, 3, little), 1, little) {}
  lemma Circle64By5(x: bv64, little: bool)
    ensures Circle64(x, 5, little) == Circle64(Circle64(x, 4, little), 1, little) {}
  lemma Circle64By6(x: bv64, little: bool)
    ensures Circle64(x, 6, little) == Circle64(Circle64(x, 5, little), 1, little) {}
  lemma Circle64By7(x: bv64, little: bool)
    ensures Circle64(x, 7, little) == Circle64(Circle64(x, 6, little), 1, little) {}

  lemma Circle32Again(x: bv32, offset: nat, little: bool)
    requires 0 < offset < 3
    ensures Circle32(x, offset + 1, little) == Circle32(Circle32(x, offset, little), 1, little)
  {
    hide Circle32;
    if offset == 1 { Circle32By2(x, little); } else { Circle32By3(x, little); }
  }

  lemma Circle32ByOneAt(x: bv32, little: bool, i: nat)
    requires i < 4
    ensures Octet32(Circle32(x, 1, little), i) == Octet32(x, Around(if little then i + 3 else i + 1, 4))
  {
    hide Octet32, Circle32;
    if little { Circle32ByOneDown(x); } else { Circle32ByOneUp(x); }
    assert i == 0 || i == 1 || i == 2 || i == 3;
  }

  lemma Circle32ByOne(x: bv32, little: bool)
    ensures Octets32(Circle32(x, 1, little)) == Circshift(Octets32(x), 1, little)
  {
    hide Octet32, Circle32, Circshift;
    forall i | 0 <= i < 4 ensures Octets32(Circle32(x, 1, little))[i] == Circshift(Octets32(x), 1, little)[i] {
      CircshiftAt(Octets32(x), 1, little, i);
      Circle32ByOneAt(x, little, i);
    }
  }

  lemma {:induction false} Circle32Refines(x: bv32, offset: nat, little: bool)
    requires 0 < offset < 4
    ensures Octets32(Circle32(x, offset, little)) == Circshift(Octets32(x), offset, little)
  {
    hide Circle32, Octets32, Circshift;
    if offset == 1 {
      Circle32ByOne(x, little);
    } else {
      Circle32Again(x, offset - 1, little);
      Circle32Refines(x, offset - 1, little);
      Circle32ByOne(Circle32(x, offset - 1, little), little);
      CircshiftAgain(Octets32(x), offset - 1, little);
    }
  }

  lemma Xor32Refines(x: bv32, y: bv32)
    ensures Octets32(x ^ y) == Xor(Octets32(x), Octets32(y))
  {
    hide Octet32;
    var z := x ^ y;
    forall i | 0 <= i < 4 ensures Octets32(z)[i] == Xor(Octets32(x), Octets32(y))[i] {
      Xor32At(x, y, z, i);
    }
  }

  lemma Circle64Again(x: bv64, offset: nat, little: bool)
    requires 0 < offset < 7
    ensures Circle64(x, offset + 1, little) == Circle64(Circle64(x, offset, little), 1, little)
  {
    hide Circle64;
    if offset == 1 { Circle64By2(x, little); }
    else if offset == 2 { Circle64By3(x, little); }
    else if offset == 3 { Circle64By4(x, little); }
    else if offset == 4 { Circle64By5(x, little); }
    else if offset == 5 { Circle64By6(x, little); }
    else { Circle64By7(x, little); }
  }

  lemma Circle64ByOneAt(x: bv64, little: bool, i: nat)
    requires i < 8
    ensures Octet64(Circle64(x, 1, little), i) == Octet64(x, Around(if little then i + 7 else i + 1, 8))
  {
    hide Octet64, Circle64;
    if little { Circle64ByOneDown(x); } else { Circle64ByOneUp(x); }
    assert i == 0 || i == 1 || i == 2 || i == 3 || i == 4 || i == 5 || i == 6 || i == 7;
  }

  lemma Circle64ByOne(x: bv64, little: bool)
    ensures Octets64(Circle64(x, 1, little)) == Circshift(Octets64(x), 1, little)
  {
    hide Octet64, Circle64, Circshift;
    forall i | 0 <= i < 8 ensures Octets64(Circle64(x, 1, little))[i] == Circshift(Octets64(x), 1, little)[i] {
      CircshiftAt(Octets64(x), 1, little, i);
      Circle64ByOneAt(x, little, i);
    }
  }

  lemma {:induction false} Circle64Refines(x: bv64, offset: nat, little: bool)
    requires 0 < offset < 8
    ensures Octets64(Circle64(x, offset, little)) == Circshift(Octets64(x), offset, little)
  {
    hide Circle64, Octets64, Circshift;
    if offset == 1 {
      Circle64ByOne(x, little);
    } else {
      Circle64Again(x, offset - 1, little);
      Circle64Refines(x, offset - 1, little);
      Circle64ByOne(Circle64(x, offset - 1, little), little);
      CircshiftAgain(Octets64(x), offset - 1, little);
    }
  }

  lemma Xor64Refines(x: bv64, y: bv64)
    ensures Octets64(x ^ y) == Xor(Octets64(x), Octets64(y))
  {
    hide Octet64;
    var z := x ^ y;
    forall i | 0 <= i < 8 ensures Octets64(z)[i] == Xor(Octets64(x), Octets64(y))[i] {
      Xor64At(x, y, z, i);
    }
  }

  lemma PreparedOctets(key: bv32)
    ensures Octet64(((key as bv64) << 32) | (key as bv64), 0) == Octet32(key, 0)
    ensures Octet64(((key as bv64) << 32) | (key as bv64), 1) == Octet32(key, 1)
    ensures Octet64(((key as bv64) << 32) | (key as bv64), 2) == Octet32(key, 2)
    ensures Octet64(((key as bv64) << 32) | (key as bv64), 3) == Octet32(key, 3)
    ensures Octet64(((key as bv64) << 32) | (key as bv64), 4) == Octet32(key, 0)
    ensures Octet64(((key as bv64) << 32) | (key as bv64), 5) == Octet32(key, 1)
    ensures Octet64(((key as bv64) << 32) | (key as bv64), 6) == Octet32(key, 2)
    ensures Octet64(((key as bv64) << 32) | (key as bv64), 7) == Octet32(key, 3)
  {
  }

  /** prepare_masking_key on an eight-byte size_t repeats the key. */
  lemma PrepareRefines(key: bv32)
    ensures Octets64(((key as bv64) << 32) | (key as bv64)) == Octets32(key) + Octets32(key)
  {
    hide Octet32, Octet64;
    PreparedOctets(key);
  }
}
