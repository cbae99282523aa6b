/**
 The XOR masking routines of the WebSocket frame codec: the byte-wise form, the two
 machine-word forms, and the prepared key that carries the position from chunk to chunk.
 */
module FrameMasking {
  import opened MachineWords

  /** sizeof(size_t), which must be 4 or 8, and the byte order. */
  datatype Machine = Machine(wide: bool, little: bool) {
    function WordSize(): nat { if wide then 8 else 4 }
  }

  /** One payload byte XORed with one key byte. */
  function Mix(a: bv8, b: bv8): bv8 { a ^ b }

  /** The bytes of `data` XORed with a repeated pattern, starting `pos` bytes into it. */
  function Masked(data: seq<bv8>, pattern: seq<bv8>, pos: nat): (r: seq<bv8>)
    requires |pattern| != 0
    ensures |r| == |data|
    ensures forall i :: 0 <= i < |data| ==> r[i] == Mix(data[i], pattern[(pos + i) % |pattern|])
  {
    seq(|data|, i requires 0 <= i < |data| => Mix(data[i], pattern[(pos + i) % |pattern|]))
  }

  /** The key as a machine word, repeated when the word is eight bytes wide. */
  function PrepareMaskingKey(key: MaskingKey, m: Machine): (k: Word)
    ensures |k| == m.WordSize()
  {
    var lowBits := Image(key, m.little);
    if m.wide then lowBits + lowBits else lowBits
  }

  /** The assignment of a prepared key to the 32-bit member of a key union. */
  function Truncated(k: Word, m: Machine): MaskingKey
    requires |k| == m.WordSize()
  {
    Image(k[|k| - 4..], m.little)
  }

  // ---------------------------------------------------------------------------
  // The masking routines. `output` may be the input array itself.
  // ---------------------------------------------------------------------------

  /** Loops byte by byte with a key index that wraps at four. */
  method ByteMask(input: array<bv8>, first: nat, last: nat, output: array<bv8>, result: nat, key: MaskingKey,
      keyOffset: nat)
    requires first <= last <= input.Length && result + (last - first) <= output.Length
    requires input != output || first == result
    modifies output
    ensures output[result..result + (last - first)] == Masked(old(input[first..last]), key, keyOffset)
    ensures forall i :: 0 <= i < output.Length && !(result <= i < result + (last - first)) ==>
      output[i] == old(output[i])
  {
    hide Mix, Masked;
    ghost var data := input[first..last];
    ghost var want := Masked(data, key, keyOffset);
    var keyIndex := keyOffset % 4;
    var n := 0;
    while first + n != last
      invariant n <= last - first && keyIndex < 4
      invariant keyIndex == (keyOffset + n) % 4
      invariant forall i :: result <= i < result + n ==> output[i] == want[i - result]
      invariant forall i :: 0 <= i < output.Length && !(result <= i < result + n) ==> output[i] == old(output[i])
      invariant forall i :: first + n <= i < last ==> input[i] == old(input[i])
    {
      assert input[first + n] == data[n];
      output[result + n] := Mix(input[first + n], key[keyIndex]);
      MaskedAt(data, key, keyOffset, n);
      NextKeyIndex(keyOffset + n);
      keyIndex := (keyIndex + 1) % 4;
      n := n + 1;
    }
  }

  lemma MaskedAt(data: seq<bv8>, key: MaskingKey, pos: nat, n: nat)
    requires n < |data|
    ensures Masked(data, key, pos)[n] == Mix(data[n], key[(pos + n) % 4])
  {
  }

  /** Octet i of the data is combined by exclusive or with octet i modulo 4 of the key (section 5.3 of RFC 6455). */
  lemma OctetMasked(data: seq<bv8>, key: MaskingKey, i: nat)
    requires i < |data|
    ensures Masked(data, key, 0)[i] == data[i] ^ key[i % 4]
  {
  }

  lemma NextKeyIndex(x: nat)
    ensures (x % 4 + 1) % 4 == (x + 1) % 4
  {
  }

  /** output_word[i] = input_word[i] ^ k, for the words that start at byte `at`. */
  method MaskWord(input: array<bv8>, output: array<bv8>, at: nat, k: Word, m: Machine)
    requires |k| == m.WordSize() && at + |k| <= input.Length && at + |k| <= output.Length
    modifies output
    ensures output[at..at + |k|] == Masked(old(input[at..at + |k|]), Image(k, m.little), 0)
    ensures forall i :: 0 <= i < output.Length && !(at <= i < at + |k|) ==> output[i] == old(output[i])
  {
    hide Mix, Xor;
    var word := Image(input[at..at + |k|], m.little);
    var bytes := Image(Xor(word, k), m.little);
    XorMixes(word, k, m.little);
    forall i | at <= i < at + |k| {
      output[i] := bytes[i - at];
    }
    hide Masked, Image;
    assert output[at..at + |k|] == bytes;
  }

  /** Masks `n` whole words with the same word; `at` is the byte where word `i` starts. */
  method MaskWords(input: array<bv8>, output: array<bv8>, n: nat, k: Word, m: Machine, ghost whole: nat)
    requires |k| == m.WordSize() && whole == n * |k|
    requires whole <= input.Length && whole <= output.Length
    modifies output
    ensures output[..whole] == Masked(old(input[..whole]), Image(k, m.little), 0)
    ensures forall i :: whole <= i < output.Length ==> output[i] == old(output[i])
  {
    hide Masked, Image;
    var w := |k|;
    ghost var data := input[..whole];
    ghost var pattern := Image(k, m.little);
    ghost var want := Masked(data, pattern, 0);
    var i, at := 0, 0;
    while i < n
      invariant i <= n && at == i * w && at <= whole
      invariant forall j :: 0 <= j < at ==> output[j] == want[j]
      invariant forall j :: at <= j < output.Length ==> output[j] == old(output[j])
      invariant forall j :: at <= j < whole ==> input[j] == data[j]
    {
      NextWordFits(i, n, w);
      SliceIs(input, data, at, w);
      MaskWord(input, output, at, k, m);
      MaskedNextWord(data, pattern, i, at);
      SlicesAgree(output, want, at, w);
      i, at := i + 1, at + w;
    }
    assert output[..whole] == want;
  }

  lemma SliceIs(a: array<bv8>, s: seq<bv8>, at: nat, w: nat)
    requires at + w <= a.Length && at + w <= |s|
    requires forall j :: at <= j < at + w ==> a[j] == s[j]
    ensures a[at..at + w] == s[at..at + w]
  {
  }

  lemma SlicesAgree(a: array<bv8>, s: seq<bv8>, at: nat, w: nat)
    requires at + w <= a.Length && at + w <= |s|
    requires a[at..at + w] == s[at..at + w]
    ensures forall j :: at <= j < at + w ==> a[j] == s[j]
  {
    forall j | at <= j < at + w ensures a[j] == s[j] {
      assert a[at..at + w][j - at] == a[j];
      assert s[at..at + w][j - at] == s[j];
    }
  }

  lemma NextWordFits(i: nat, n: nat, w: nat)
    requires i < n
    ensures (i + 1) * w == i * w + w <= n * w
  {
    assert n * w == (i + 1) * w + (n - i - 1) * w;
  }

  lemma XorMixes(a: Word, b: Word, little: bool)
    requires |a| == |b| != 0
    ensures Image(Xor(a, b), little) == Masked(Image(a, little), Image(b, little), 0)
  {
    forall i | 0 <= i < |a| ensures Xor(a, b)[i] == Mix(a[i], b[i]) {
    }
    hide Mix, Xor;
    forall i | 0 <= i < |a| ensures Masked(Image(a, little), Image(b, little), 0)[i] == Image(Xor(a, b), little)[i] {
      assert (0 + i) % |b| == i;
    }
  }

  lemma MaskedAppend(a: seq<bv8>, b: seq<bv8>, pattern: seq<bv8>, pos: nat)
    requires |pattern| != 0
    ensures Masked(a + b, pattern, pos) == Masked(a, pattern, pos) + Masked(b, pattern, pos + |a|)
  {
    hide Mix;
    var l, r := Masked(a + b, pattern, pos), Masked(a, pattern, pos) + Masked(b, pattern, pos + |a|);
    forall i | 0 <= i < |l| ensures l[i] == r[i] {
      assert pos + |a| + (i - |a|) == pos + i;
    }
  }

  lemma WholeTurns(n: nat, size: nat, i: nat)
    requires size == 4 || size == 8
    ensures (n * size + i) % size == i % size
  {
    if size == 4 { TurnsOfFour(n, i); } else { TurnsOfEight(n, i); }
  }

  lemma TurnsOfFour(n: nat, i: nat) ensures (n * 4 + i) % 4 == i % 4 {}
  lemma TurnsOfEight(n: nat, i: nat) ensures (n * 8 + i) % 8 == i % 8 {}

  /** Masking restarts at the beginning of the pattern after whole repetitions of it. */
  lemma MaskedWraps(data: seq<bv8>, pattern: seq<bv8>, n: nat)
    requires |pattern| == 4 || |pattern| == 8
    ensures Masked(data, pattern, n * |pattern|) == Masked(data, pattern, 0)
  {
    hide Mix;
    var l, r := Masked(data, pattern, n * |pattern|), Masked(data, pattern, 0);
    forall i | 0 <= i < |data| ensures l[i] == r[i] {
      WholeTurns(n, |pattern|, i);
    }
  }

  lemma MaskedNextWord(data: seq<bv8>, pattern: seq<bv8>, i: nat, at: nat)
    requires |pattern| == 4 || |pattern| == 8
    requires at == i * |pattern| && at + |pattern| <= |data|
    ensures Masked(data, pattern, 0)[at..at + |pattern|] == Masked(data[at..at + |pattern|], pattern, 0)
  {
    hide Mix;
    MaskedWraps(data[at..at + |pattern|], pattern, i);
    assert Masked(data[at..at + |pattern|], pattern, at) == Masked(data, pattern, 0)[at..at + |pattern|];
  }

  /** The bytes from `start` on, each XORed with its own byte of a repeated pattern. */
  method MaskTail(input: array<bv8>, output: array<bv8>, start: nat, length: nat, pattern: seq<bv8>, pos: nat)
    requires start <= length <= input.Length && length <= output.Length && |pattern| != 0
    modifies output
    ensures output[start..length] == Masked(old(input[start..length]), pattern, pos)
    ensures forall i :: 0 <= i < output.Length && !(start <= i < length) ==> output[i] == old(output[i])
  {
    hide Mix;
    ghost var want := Masked(input[start..length], pattern, pos);
    for i := start to length
      invariant forall j :: start <= j < i ==> output[j] == want[j - start]
      invariant forall j :: 0 <= j < output.Length && !(start <= j < i) ==> output[j] == old(output[j])
      invariant forall j :: i <= j < length ==> input[j] == old(input[j])
    {
      assert input[i] == old(input[start..length])[i - start];
      output[i] := Mix(input[i], pattern[(pos + (i - start)) % |pattern|]);
    }
  }

  lemma SplitLength(length: nat, w: nat)
    requires w == 4 || w == 8
    ensures length / w * w <= length && length - length / w * w == length % w
  {
  }

  lemma MaskedHeadAndTail(data: seq<bv8>, whole: nat, pattern: seq<bv8>, pos: nat)
    requires whole <= |data| && |pattern| != 0
    ensures Masked(data, pattern, pos) == Masked(data[..whole], pattern, pos) +
      Masked(data[whole..], pattern, pos + whole)
  {
    hide Masked;
    MaskedAppend(data[..whole], data[whole..], pattern, pos);
    assert data == data[..whole] + data[whole..];
  }

  /** The word loop and the byte loop that both word routines are made of. */
  method MaskWordsThenTail(input: array<bv8>, output: array<bv8>, length: nat, k: Word, tail: seq<bv8>, pos: nat,
      n: nat, whole: nat, m: Machine)
    requires length <= input.Length && length <= output.Length && |k| == m.WordSize() && |tail| != 0
    requires whole == n * |k| <= length
    modifies output
    ensures output[..length] == Masked(old(input[..whole]), Image(k, m.little), 0) +
      Masked(old(input[whole..length]), tail, pos)
    ensures forall i :: length <= i < output.Length ==> output[i] == old(output[i])
  {
    hide Masked, Image;
    MaskWords(input, output, n, k, m, whole);
    ghost var head := output[..whole];
    assert input[whole..length] == old(input[whole..length]);
    MaskTail(input, output, whole, length, tail, pos);
    assert output[..whole] == head;
    assert output[..length] == output[..whole] + output[whole..length];
  }

  /** Whole words with the repeated key, then what remains with the key's own bytes. */
  method WordMaskExact(input: array<bv8>, output: array<bv8>, length: nat, key: MaskingKey, m: Machine)
    requires length <= input.Length && length <= output.Length
    modifies output
    ensures output[..length] == Masked(old(input[..length]), key, 0)
    ensures forall i :: length <= i < output.Length ==> output[i] == old(output[i])
  {
    hide Masked, Image, Tiles;
    var preparedKey := PrepareMaskingKey(key, m);
    var n := length / m.WordSize();
    var whole := n * m.WordSize();
    SplitLength(length, m.WordSize());
    ghost var data := input[..length];
    assert data[..whole] == input[..whole] && data[whole..] == input[whole..length];
    MaskWordsThenTail(input, output, length, preparedKey, key, whole, n, whole, m);
    PreparedTiles(key, m);
    MaskedTiles(data[..whole], Image(preparedKey, m.little), key, 0);
    MaskedHeadAndTail(data, whole, key, 0);
  }

  /** Whole words first, then the rest with the bytes of the key word; the shifted key comes back. */
  method WordMaskCirc(input: array<bv8>, output: array<bv8>, length: nat, preparedKey: Word, m: Machine)
      returns (next: Word)
    requires length <= input.Length && length <= output.Length && |preparedKey| == m.WordSize()
    modifies output
    ensures output[..length] == ChunkBytes(old(input[..length]), ByWord, preparedKey, m)
    ensures forall i :: length <= i < output.Length ==> output[i] == old(output[i])
    ensures next == ChunkKey(length, ByWord, preparedKey, m)
  {
    hide Masked, Image, ChunkBytes, ChunkKey, Circshift;
    var n := length / m.WordSize();
    var whole := n * m.WordSize();
    var l := length - whole;
    CircParts(input[..length], whole, preparedKey, m);
    assert input[..length][..whole] == input[..whole] && input[..length][whole..] == input[whole..length];
    MaskWordsThenTail(input, output, length, preparedKey, Image(preparedKey, m.little), 0, n, whole, m);
    next := Circshift(preparedKey, l, m.little);
  }

  lemma CircParts(data: seq<bv8>, whole: nat, k: Word, m: Machine)
    requires |k| == m.WordSize() && whole == |data| / m.WordSize() * m.WordSize()
    ensures whole <= |data| && |data| - whole < |k|
    ensures ChunkBytes(data, ByWord, k, m)
         == Masked(data[..whole], Image(k, m.little), 0) + Masked(data[whole..], Image(k, m.little), 0)
    ensures ChunkKey(|data|, ByWord, k, m) == Circshift(k, |data| - whole, m.little)
  {
    hide Masked, Image, Circshift;
    SplitLength(|data|, m.WordSize());
    MaskedWraps(data[whole..], Image(k, m.little), |data| / m.WordSize());
    MaskedHeadAndTail(data, whole, Image(k, m.little), 0);
  }

  /** Byte by byte with the 32-bit half of the key word. */
  method ByteMaskCirc(input: array<bv8>, output: array<bv8>, length: nat, preparedKey: Word, m: Machine)
      returns (next: Word)
    requires length <= input.Length && length <= output.Length && |preparedKey| == m.WordSize()
    modifies output
    ensures output[..length] == ChunkBytes(old(input[..length]), ByByte, preparedKey, m)
    ensures forall i :: length <= i < output.Length ==> output[i] == old(output[i])
    ensures next == ChunkKey(length, ByByte, preparedKey, m)
  {
    hide Masked;
    var key := Truncated(preparedKey, m);
    MaskTail(input, output, 0, length, key, 0);
    assert output[..length] == output[0..length];
    assert old(input[..length]) == old(input[0..length]);
    next := Circshift(preparedKey, length % 4, m.little);
  }

  // ---------------------------------------------------------------------------
  // Masking a payload chunk by chunk
  // ---------------------------------------------------------------------------

  datatype Routine = ByWord | ByByte
  datatype Chunk = Chunk(data: seq<bv8>, routine: Routine)

  function ChunkBytes(data: seq<bv8>, routine: Routine, k: Word, m: Machine): seq<bv8>
    requires |k| == m.WordSize()
  {
    Masked(data, if routine.ByWord? then Image(k, m.little) else Truncated(k, m), 0)
  }

  function ChunkKey(length: nat, routine: Routine, k: Word, m: Machine): (next: Word)
    requires |k| == m.WordSize()
    ensures |next| == |k|
  {
    Circshift(k, length % (if routine.ByWord? then m.WordSize() else 4), m.little)
  }

  /** Every chunk is masked with the key that the chunk before it returned. */
  function MaskChunks(chunks: seq<Chunk>, k: Word, m: Machine): (r: (seq<bv8>, Word))
    requires |k| == m.WordSize()
    ensures |r.1| == |k|
  {
    if chunks == [] then ([], k)
    else
      var c := chunks[0];
      var rest := MaskChunks(chunks[1..], ChunkKey(|c.data|, c.routine, k, m), m);
      (ChunkBytes(c.data, c.routine, k, m) + rest.0, rest.1)
  }

  function Payload(chunks: seq<Chunk>): seq<bv8> {
    if chunks == [] then [] else chunks[0].data + Payload(chunks[1..])
  }

  /** `bytes` is the masking key repeated, starting `pos` bytes into the payload. */
  ghost predicate Tiles(bytes: seq<bv8>, key: MaskingKey, pos: nat) {
    forall j :: 0 <= j < |bytes| ==> bytes[j] == key[(pos + j) % 4]
  }

  lemma PreparedTiles(key: MaskingKey, m: Machine)
    ensures Tiles(Image(PrepareMaskingKey(key, m), m.little), key, 0)
  {
  }

  lemma TurnsWithinTurns(pos: nat, i: nat, size: nat)
    requires size == 4 || size == 8
    ensures (pos + i % size) % 4 == (pos + i) % 4
  {
    if size == 4 {} else {}
  }

  /** A pattern that tiles the key from `pos` masks as the key does from `pos`. */
  lemma MaskedTiles(data: seq<bv8>, pattern: seq<bv8>, key: MaskingKey, pos: nat)
    requires |pattern| == 4 || |pattern| == 8
    requires Tiles(pattern, key, pos)
    ensures Masked(data, pattern, 0) == Masked(data, key, pos)
  {
    hide Mix;
    var l, r := Masked(data, pattern, 0), Masked(data, key, pos);
    forall i | 0 <= i < |data| ensures l[i] == r[i] {
      assert 0 + i == i;
      TurnsWithinTurns(pos, i, |pattern|);
      assert pattern[i % |pattern|] == key[(pos + i % |pattern|) % 4];
    }
  }

  /** Both halves of a wide key hold the same four bytes, so the narrowing loses nothing. */
  lemma TruncatedTiles(k: Word, m: Machine, key: MaskingKey, pos: nat)
    requires |k| == m.WordSize() && Tiles(Image(k, m.little), key, pos)
    ensures Tiles(Truncated(k, m), key, pos)
  {
    var bytes := Image(k, m.little);
    forall j | 0 <= j < 4 ensures Truncated(k, m)[j] == key[(pos + j) % 4] {
      assert Truncated(k, m)[j] == if m.little then bytes[j] else bytes[|k| - 4 + j];
      assert (pos + 4 + j) % 4 == (pos + j) % 4;
    }
  }

  lemma ChunkKeyTiles(length: nat, routine: Routine, k: Word, m: Machine, key: MaskingKey, pos: nat)
    requires |k| == m.WordSize() && Tiles(Image(k, m.little), key, pos)
    ensures Tiles(Image(ChunkKey(length, routine, k, m), m.little), key, pos + length)
  {
    hide Circshift, Image, Around;
    var size := if routine.ByWord? then m.WordSize() else 4;
    var offset := length % size;
    var before, after := Image(k, m.little), Image(Circshift(k, offset, m.little), m.little);
    forall j | 0 <= j < |k| ensures after[j] == key[(pos + length + j) % 4] {
      CircshiftImage(k, offset, m.little, j);
      KeyByteAfter(pos, j, length, size, |k|);
      assert before[Around(j + offset, |k|)] == key[(pos + Around(j + offset, |k|)) % 4];
    }
  }

  /** Which key byte comes to place j when the key is shifted on by `length`. */
  lemma KeyByteAfter(pos: nat, j: nat, length: nat, size: nat, w: nat)
    requires (w == 4 || w == 8) && (size == 4 || size == w) && j < w
    ensures Around(j + length % size, w) < w
    ensures (pos + Around(j + length % size, w)) % 4 == (pos + length + j) % 4
  {
    TurnsWithinTurns(pos + j, length, size);
    var offset := length % size;
    if j + offset >= w {
      LessATurn(pos + j + offset, w);
    }
  }

  lemma LessATurn(x: nat, w: nat)
    requires (w == 4 || w == 8) && w <= x
    ensures (x - w) % 4 == x % 4
  {
  }

  lemma ChunkMasked(c: Chunk, k: Word, m: Machine, key: MaskingKey, pos: nat)
    requires |k| == m.WordSize() && Tiles(Image(k, m.little), key, pos)
    ensures ChunkBytes(c.data, c.routine, k, m) == Masked(c.data, key, pos)
  {
    hide Masked, Tiles, Image;
    TruncatedTiles(k, m, key, pos);
    MaskedTiles(c.data, if c.routine.ByWord? then Image(k, m.little) else Truncated(k, m), key, pos);
  }

  lemma {:induction false} MaskChunksFrom(chunks: seq<Chunk>, k: Word, m: Machine, key: MaskingKey, pos: nat)
    requires |k| == m.WordSize() && Tiles(Image(k, m.little), key, pos)
    ensures MaskChunks(chunks, k, m).0 == Masked(Payload(chunks), key, pos)
    ensures Tiles(Image(MaskChunks(chunks, k, m).1, m.little), key, pos + |Payload(chunks)|)
  {
    hide Masked, ChunkKey, Tiles, Image, ChunkBytes, MaskChunks, Payload;
    if chunks == [] {
      NothingToMask(k, m, key, pos);
    } else {
      var c := chunks[0];
      var next := ChunkKey(|c.data|, c.routine, k, m);
      ChunkKeyTiles(|c.data|, c.routine, k, m, key, pos);
      ChunkMasked(c, k, m, key, pos);
      MaskChunksFrom(chunks[1..], next, m, key, pos + |c.data|);
      MaskedAppend(c.data, Payload(chunks[1..]), key, pos);
      FirstChunk(chunks, k, m);
    }
  }

  lemma NothingToMask(k: Word, m: Machine, key: MaskingKey, pos: nat)
    requires |k| == m.WordSize()
    ensures MaskChunks([], k, m) == (Masked([], key, pos), k) && Payload([]) == []
  {
  }

  lemma FirstChunk(chunks: seq<Chunk>, k: Word, m: Machine)
    requires |k| == m.WordSize() && chunks != []
    ensures var c := chunks[0];
      var rest := MaskChunks(chunks[1..], ChunkKey(|c.data|, c.routine, k, m), m);
      && MaskChunks(chunks, k, m) == (ChunkBytes(c.data, c.routine, k, m) + rest.0, rest.1)
      && Payload(chunks) == c.data + Payload(chunks[1..])
  {
    hide ChunkBytes, ChunkKey;
  }

  /**
   However a payload is cut into chunks, and whichever routine masks each chunk, the result is
   one byte-wise pass over the whole payload (section 5.3 of RFC 6455).
   */
  lemma MaskingInChunks(chunks: seq<Chunk>, key: MaskingKey, m: Machine)
    ensures MaskChunks(chunks, PrepareMaskingKey(key, m), m).0 == Masked(Payload(chunks), key, 0)
  {
    PreparedTiles(key, m);
    MaskChunksFrom(chunks, PrepareMaskingKey(key, m), m, key, 0);
  }

  lemma MixTwice(a: bv8, b: bv8)
    ensures Mix(Mix(a, b), b) == a
  {
  }

  /** Masking is its own inverse. */
  lemma MaskedTwice(data: seq<bv8>, key: MaskingKey, pos: nat)
    ensures Masked(Masked(data, key, pos), key, pos) == data
  {
    hide Mix;
    forall i | 0 <= i < |data| ensures Masked(Masked(data, key, pos), key, pos)[i] == data[i] {
      MixTwice(data[i], key[(pos + i) % 4]);
    }
  }

  /** The receiver may cut the masked payload differently and still get the payload back. */
  lemma UnmaskingInOtherChunks(sent: seq<Chunk>, received: seq<Chunk>, key: MaskingKey, sender: Machine,
      receiver: Machine)
    requires Payload(received) == MaskChunks(sent, PrepareMaskingKey(key, sender), sender).0
    ensures MaskChunks(received, PrepareMaskingKey(key, receiver), receiver).0 == Payload(sent)
  {
    MaskingInChunks(sent, key, sender);
    MaskingInChunks(received, key, receiver);
    MaskedTwice(Payload(sent), key, 0);
  }
}
