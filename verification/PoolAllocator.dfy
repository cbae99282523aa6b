/**
 The memory pool: a linked list of chunks, of which the first serves allocations by moving a
 mark, and blocks that live in the used parts of the chunks.
 */
module PoolAllocator {
  import opened Widths

  /** sizeof(ChunkHeader) on a 64-bit machine */
  const HEADER: nat := 24

  const DEFAULT_CHUNK_CAPACITY: nat := 64 * 1024

  /** The largest size that RAPIDJSON_ALIGN does not truncate. */
  const MAX_BLOCK: nat := 0xFFFF_FFFC

  /** Addresses of a process lie below. */
  const ADDRESS_LIMIT: nat := 0x8000_0000_0000_0000

  /** (x + 3u) & ~3u on a 64-bit x: the mask is a 32-bit number, so the upper half is cleared too. */
  function Align(x: nat): (n: nat)
    ensures n % 4 == 0 && n <= MAX_BLOCK
  {
    (x + 3) % TWO32 / 4 * 4
  }

  /** Aligning rounds up exactly when the size fits 32 bits, and then by less than four. */
  lemma AlignRoundsUpIff(x: nat)
    ensures Align(x) >= x <==> x <= MAX_BLOCK
    ensures x <= MAX_BLOCK ==> Align(x) < x + 4
  {
    if x <= MAX_BLOCK {
      assert (x + 3) % TWO32 == x + 3;
    }
  }

  // ---------------------------------------------------------------------------
  // Chunks and blocks as values
  // ---------------------------------------------------------------------------

  datatype Chunk = Chunk(addr: nat, capacity: nat, size: nat)

  /** What a caller holds: a pointer, and the size it asked for. */
  datatype Block = Block(ptr: nat, size: nat)

  /** Where a chunk's bytes begin, behind the header. */
  function Data(c: Chunk): nat { c.addr + HEADER }

  function End(c: Chunk): nat { c.addr + HEADER + c.capacity }

  predicate ChunkOk(c: Chunk) { 0 < c.addr && c.size <= c.capacity && End(c) <= ADDRESS_LIMIT }

  predicate ChunksApart(c: Chunk, d: Chunk) { End(c) <= d.addr || End(d) <= c.addr }

  ghost predicate ChunksOk(cs: seq<Chunk>) {
    && (forall i :: 0 <= i < |cs| ==> ChunkOk(cs[i]))
    && (forall i, j :: 0 <= i < j < |cs| ==> ChunksApart(cs[i], cs[j]))
  }

  /** The block lies in the used part of the chunk. */
  predicate InUsed(c: Chunk, b: Block) { Data(c) <= b.ptr && b.ptr + b.size <= Data(c) + c.size }

  ghost predicate Housed(cs: seq<Chunk>, b: Block) {
    exists i :: 0 <= i < |cs| && InUsed(cs[i], b)
  }

  /** No byte belongs to both. */
  predicate Apart(a: Block, b: Block) {
    a.size == 0 || b.size == 0 || a.ptr + a.size <= b.ptr || b.ptr + b.size <= a.ptr
  }

  ghost predicate BlocksApart(live: seq<Block>) {
    forall i, j :: 0 <= i < j < |live| ==> Apart(live[i], live[j])
  }

  datatype Pool = Pool(chunks: seq<Chunk>, live: seq<Block>)

  ghost predicate Inv(p: Pool) {
    && ChunksOk(p.chunks)
    && (forall i :: 0 <= i < |p.live| ==> Housed(p.chunks, p.live[i]))
    && BlocksApart(p.live)
  }

  /** A block lies in one chunk only, even when it is empty. */
  lemma HomeIsUnique(cs: seq<Chunk>, b: Block, i: nat, j: nat)
    requires ChunksOk(cs) && i < |cs| && j < |cs| && i != j && InUsed(cs[i], b)
    ensures !InUsed(cs[j], b)
  {
    assert ChunkOk(cs[i]) && ChunkOk(cs[j]);
    assert ChunksApart(cs[if i < j then i else j], cs[if i < j then j else i]);
  }

  // ---------------------------------------------------------------------------
  // The operations as functions
  // ---------------------------------------------------------------------------

  /** The first chunk has no room for n more bytes. */
  predicate Full(cs: seq<Chunk>, n: nat) { cs == [] || cs[0].size + n > cs[0].capacity }

  function Larger(a: nat, b: nat): nat { if a > b then a else b }

  /** The chunks when a new one is put in front if need be; `region` is what the base allocator returns. */
  function WithRoom(cs: seq<Chunk>, least: nat, n: nat, region: nat): (r: seq<Chunk>)
    ensures !Full(r, n)
  {
    if Full(cs, n) then [Chunk(region, Larger(least, n), 0)] + cs else cs
  }

  function Taken(cs: seq<Chunk>, n: nat): seq<Chunk>
    requires cs != []
  {
    [cs[0].(size := cs[0].size + n)] + cs[1..]
  }

  /** The first byte of the first chunk that is not used. */
  function Mark(cs: seq<Chunk>): nat
    requires cs != []
  {
    Data(cs[0]) + cs[0].size
  }

  function MallocChunks(cs: seq<Chunk>, least: nat, size: nat, region: nat): seq<Chunk> {
    Taken(WithRoom(cs, least, Align(size), region), Align(size))
  }

  function MallocPtr(cs: seq<Chunk>, least: nat, size: nat, region: nat): nat {
    Mark(WithRoom(cs, least, Align(size), region))
  }

  function Malloced(p: Pool, least: nat, size: nat, region: nat): Pool {
    Pool(MallocChunks(p.chunks, least, size, region), p.live + [Block(MallocPtr(p.chunks, least, size, region), size)])
  }

  /** The block ends at the mark, and the chunk has room for the growth. */
  predicate GrowsInPlace(cs: seq<Chunk>, b: Block, newSize: nat)
    requires cs != [] && b.size < newSize
  {
    b.ptr + b.size == Mark(cs) && !Full(cs, Align(newSize - b.size))
  }

  datatype Resizing = Same | InPlace | Moved

  function ResizingOf(cs: seq<Chunk>, b: Block, newSize: nat): Resizing
    requires cs != []
  {
    if b.size >= newSize then Same else if GrowsInPlace(cs, b, newSize) then InPlace else Moved
  }

  function ReallocChunks(cs: seq<Chunk>, least: nat, b: Block, newSize: nat, region: nat): seq<Chunk>
    requires cs != []
  {
    match ResizingOf(cs, b, newSize)
    case Same => cs
    case InPlace => Taken(cs, Align(newSize - b.size))
    case Moved => MallocChunks(cs, least, newSize, region)
  }

  function ReallocPtr(cs: seq<Chunk>, least: nat, b: Block, newSize: nat, region: nat): nat
    requires cs != []
  {
    if ResizingOf(cs, b, newSize).Moved? then MallocPtr(cs, least, newSize, region) else b.ptr
  }

  /** Block k becomes the block that Realloc returns; an old one that was moved is not live any more. */
  function Realloced(p: Pool, least: nat, k: nat, newSize: nat, region: nat): Pool
    requires k < |p.live| && p.chunks != []
  {
    Pool(ReallocChunks(p.chunks, least, p.live[k], newSize, region),
         p.live[k := Block(ReallocPtr(p.chunks, least, p.live[k], newSize, region), newSize)])
  }

  /** What malloc promises: the region is no part of any chunk. */
  ghost predicate FreshRegion(cs: seq<Chunk>, region: nat, capacity: nat) {
    var c := Chunk(region, capacity, 0);
    ChunkOk(c) && forall i :: 0 <= i < |cs| ==> ChunksApart(c, cs[i])
  }

  /** The base allocator's answer, in case it is asked. */
  ghost predicate GoodRegion(cs: seq<Chunk>, least: nat, n: nat, region: nat) {
    Full(cs, n) ==> FreshRegion(cs, region, Larger(least, n))
  }

  // ---------------------------------------------------------------------------
  // What every operation keeps
  // ---------------------------------------------------------------------------

  lemma RoomKeeps(cs: seq<Chunk>, least: nat, n: nat, region: nat)
    requires ChunksOk(cs) && GoodRegion(cs, least, n, region)
    ensures ChunksOk(WithRoom(cs, least, n, region))
  {
    if Full(cs, n) {
      var c := Chunk(region, Larger(least, n), 0);
      var r := [c] + cs;
      forall i, j | 0 <= i < j < |r| ensures ChunksApart(r[i], r[j]) {
        if i > 0 { assert ChunksApart(cs[i - 1], cs[j - 1]); } else { assert ChunksApart(c, cs[j - 1]); }
      }
    }
  }

  lemma RoomHouses(cs: seq<Chunk>, least: nat, n: nat, region: nat, b: Block)
    requires Housed(cs, b)
    ensures Housed(WithRoom(cs, least, n, region), b)
  {
    var i :| 0 <= i < |cs| && InUsed(cs[i], b);
    var r := WithRoom(cs, least, n, region);
    assert InUsed(r[if Full(cs, n) then i + 1 else i], b);
  }

  lemma TakenKeeps(cs: seq<Chunk>, n: nat)
    requires ChunksOk(cs) && !Full(cs, n)
    ensures ChunksOk(Taken(cs, n))
  {
    var r := Taken(cs, n);
    assert ChunkOk(cs[0]);
    forall i, j | 0 <= i < j < |r| ensures ChunksApart(r[i], r[j]) {
      assert ChunksApart(cs[i], cs[j]);
    }
  }

  lemma TakenHouses(cs: seq<Chunk>, n: nat, b: Block)
    requires cs != [] && Housed(cs, b)
    ensures Housed(Taken(cs, n), b)
  {
    var i :| 0 <= i < |cs| && InUsed(cs[i], b);
    assert InUsed(Taken(cs, n)[i], b);
  }

  /** Nothing housed reaches past the mark into the rest of the first chunk. */
  lemma PastTheMark(cs: seq<Chunk>, b: Block, added: Block)
    requires ChunksOk(cs) && cs != [] && Housed(cs, b)
    requires Mark(cs) <= added.ptr && added.ptr + added.size <= End(cs[0])
    ensures Apart(b, added)
  {
    var i :| 0 <= i < |cs| && InUsed(cs[i], b);
    assert ChunkOk(cs[i]) && ChunkOk(cs[0]);
    if i > 0 {
      assert ChunksApart(cs[0], cs[i]);
    }
  }

  lemma FreshBlockHoused(cs: seq<Chunk>, n: nat, size: nat)
    requires !Full(cs, n) && size <= n
    ensures Housed(Taken(cs, n), Block(Mark(cs), size))
  {
    assert InUsed(Taken(cs, n)[0], Block(Mark(cs), size));
  }

  /** A block at the mark that is larger than what was taken for it is in no chunk. */
  lemma OversizedIsHomeless(cs: seq<Chunk>, n: nat, b: Block)
    requires ChunksOk(cs) && !Full(cs, n) && Data(cs[0]) <= b.ptr <= Mark(cs) && b.ptr + b.size > Mark(cs) + n
    ensures !Housed(Taken(cs, n), b)
  {
    var r := Taken(cs, n);
    assert ChunkOk(cs[0]);
    forall i | 0 < i < |r| ensures !InUsed(r[i], b) {
      assert ChunkOk(cs[i]) && ChunksApart(cs[0], cs[i]);
    }
  }

  lemma AppendApart(live: seq<Block>, b: Block)
    requires BlocksApart(live) && forall i :: 0 <= i < |live| ==> Apart(live[i], b)
    ensures BlocksApart(live + [b])
  {
  }

  lemma ReplaceApart(live: seq<Block>, k: nat, b: Block)
    requires k < |live| && BlocksApart(live) && forall i :: 0 <= i < |live| && i != k ==> Apart(live[i], b)
    ensures BlocksApart(live[k := b])
  {
    var r := live[k := b];
    forall i, j | 0 <= i < j < |r| ensures Apart(r[i], r[j]) {
      if i != k && j != k { assert Apart(live[i], live[j]); }
    }
  }

  lemma ChunksOfMalloc(cs: seq<Chunk>, least: nat, size: nat, region: nat)
    requires ChunksOk(cs) && GoodRegion(cs, least, Align(size), region)
    ensures ChunksOk(MallocChunks(cs, least, size, region))
  {
    hide ChunksOk, GoodRegion, Align, WithRoom, Taken;
    RoomKeeps(cs, least, Align(size), region);
    TakenKeeps(WithRoom(cs, least, Align(size), region), Align(size));
  }

  /** Blocks stay where they are, and apart from the new one. */
  lemma OthersOfMalloc(cs: seq<Chunk>, least: nat, size: nat, region: nat, b: Block)
    requires ChunksOk(cs) && GoodRegion(cs, least, Align(size), region) && Housed(cs, b)
    ensures Housed(MallocChunks(cs, least, size, region), b)
    ensures size <= MAX_BLOCK ==> Apart(b, Block(MallocPtr(cs, least, size, region), size))
  {
    hide ChunksOk, GoodRegion, Align, WithRoom, Taken, Housed, Mark, Apart;
    var n := Align(size);
    AlignRoundsUpIff(size);
    var r := WithRoom(cs, least, n, region);
    RoomKeeps(cs, least, n, region);
    RoomHouses(cs, least, n, region, b);
    TakenHouses(r, n, b);
    if size <= MAX_BLOCK {
      MarkHasRoom(r, n);
      PastTheMark(r, b, Block(Mark(r), size));
    }
  }

  lemma MarkHasRoom(cs: seq<Chunk>, n: nat)
    requires !Full(cs, n)
    ensures Mark(cs) + n <= End(cs[0])
  {
  }

  /** The new block has a home exactly when its size was not truncated. */
  lemma BlockOfMalloc(cs: seq<Chunk>, least: nat, size: nat, region: nat)
    requires ChunksOk(cs) && GoodRegion(cs, least, Align(size), region)
    ensures Housed(MallocChunks(cs, least, size, region), Block(MallocPtr(cs, least, size, region), size)) <==>
      size <= MAX_BLOCK
  {
    hide ChunksOk, GoodRegion, Align, WithRoom, Taken, Housed;
    var n := Align(size);
    AlignRoundsUpIff(size);
    var r := WithRoom(cs, least, n, region);
    RoomKeeps(cs, least, n, region);
    if size <= MAX_BLOCK {
      FreshBlockHoused(r, n, size);
    } else {
      OversizedIsHomeless(r, n, Block(Mark(r), size));
    }
  }

  /**
   Malloc keeps all live blocks, the new one among them, apart and inside the used part of a chunk
   exactly when the size is at most 0xFFFFFFFC.
   */
  lemma MallocKeepsIff(p: Pool, least: nat, size: nat, region: nat)
    requires Inv(p) && GoodRegion(p.chunks, least, Align(size), region)
    ensures Inv(Malloced(p, least, size, region)) <==> size <= MAX_BLOCK
  {
    var q := Malloced(p, least, size, region);
    hide ChunksOk, GoodRegion, Align, MallocChunks, MallocPtr, Housed, Apart;
    BlockOfMalloc(p.chunks, least, size, region);
    assert q.live[|p.live|] == Block(MallocPtr(p.chunks, least, size, region), size);
    if size <= MAX_BLOCK {
      ChunksOfMalloc(p.chunks, least, size, region);
      forall i | 0 <= i < |p.live|
        ensures Housed(q.chunks, p.live[i]) && Apart(p.live[i], q.live[|p.live|])
      {
        OthersOfMalloc(p.chunks, least, size, region, p.live[i]);
      }
      AppendApart(p.live, q.live[|p.live|]);
    }
  }

  /** What Realloc can be asked for: the part that is newly reserved fits 32 bits. */
  predicate Resizable(cs: seq<Chunk>, b: Block, newSize: nat)
    requires cs != []
  {
    match ResizingOf(cs, b, newSize)
    case Same => true
    case InPlace => newSize - b.size <= MAX_BLOCK
    case Moved => newSize <= MAX_BLOCK
  }

  lemma GrownBlock(cs: seq<Chunk>, b: Block, newSize: nat)
    requires ChunksOk(cs) && cs != [] && Housed(cs, b) && ResizingOf(cs, b, newSize).InPlace?
    ensures ChunksOk(Taken(cs, Align(newSize - b.size)))
    ensures Housed(Taken(cs, Align(newSize - b.size)), Block(b.ptr, newSize)) <==> newSize - b.size <= MAX_BLOCK
  {
    var n := Align(newSize - b.size);
    AlignRoundsUpIff(newSize - b.size);
    hide Align;
    TakenKeeps(cs, n);
    LastBlockIsInHead(cs, b);
    if newSize - b.size <= MAX_BLOCK {
      assert InUsed(Taken(cs, n)[0], Block(b.ptr, newSize));
    } else {
      OversizedIsHomeless(cs, n, Block(b.ptr, newSize));
    }
  }

  /** A housed block that ends at the mark is in the first chunk, whatever lies next to it in memory. */
  lemma LastBlockIsInHead(cs: seq<Chunk>, b: Block)
    requires ChunksOk(cs) && cs != [] && Housed(cs, b) && b.ptr + b.size == Mark(cs)
    ensures InUsed(cs[0], b)
  {
    assert ChunkOk(cs[0]);
    forall i | 0 < i < |cs| ensures !InUsed(cs[i], b) {
      assert ChunkOk(cs[i]) && ChunksApart(cs[0], cs[i]);
    }
  }

  lemma GrownBlockApart(cs: seq<Chunk>, b: Block, newSize: nat, other: Block)
    requires ChunksOk(cs) && cs != [] && Housed(cs, other) && Apart(b, other)
    requires ResizingOf(cs, b, newSize).InPlace? && newSize - b.size <= MAX_BLOCK
    ensures Housed(Taken(cs, Align(newSize - b.size)), other) && Apart(other, Block(b.ptr, newSize))
  {
    var n := Align(newSize - b.size);
    AlignRoundsUpIff(newSize - b.size);
    hide Align;
    TakenHouses(cs, n, other);
    PastTheMark(cs, other, Block(Mark(cs), newSize - b.size));
  }

  /**
   Realloc of a live block, given its true size, keeps everything apart and housed exactly when the
   newly reserved part fits 32 bits.
   */
  lemma ReallocKeepsIff(p: Pool, least: nat, k: nat, newSize: nat, region: nat)
    requires Inv(p) && p.chunks != [] && k < |p.live|
    requires ResizingOf(p.chunks, p.live[k], newSize).Moved? ==> GoodRegion(p.chunks, least, Align(newSize), region)
    ensures Inv(Realloced(p, least, k, newSize, region)) <==> Resizable(p.chunks, p.live[k], newSize)
  {
    hide ChunksOk, GoodRegion, Align, MallocChunks, MallocPtr, Housed, Apart, GrowsInPlace, Full, Taken;
    var b := p.live[k];
    var c := Block(ReallocPtr(p.chunks, least, b, newSize, region), newSize);
    match ResizingOf(p.chunks, b, newSize)
    case Same => ShrunkKeeps(p, k, newSize);
    case InPlace =>
      GrownBlock(p.chunks, b, newSize);
      if newSize - b.size <= MAX_BLOCK {
        forall i | 0 <= i < |p.live| && i != k
          ensures Housed(Taken(p.chunks, Align(newSize - b.size)), p.live[i]) && Apart(p.live[i], c)
        {
          ApartBothWays(p.live, k, i);
          GrownBlockApart(p.chunks, b, newSize, p.live[i]);
        }
        ReplaceApart(p.live, k, c);
      }
      HousedAt(Realloced(p, least, k, newSize, region), k);
    case Moved =>
      BlockOfMalloc(p.chunks, least, newSize, region);
      if newSize <= MAX_BLOCK {
        ChunksOfMalloc(p.chunks, least, newSize, region);
        forall i | 0 <= i < |p.live| && i != k
          ensures Housed(MallocChunks(p.chunks, least, newSize, region), p.live[i]) && Apart(p.live[i], c)
        {
          OthersOfMalloc(p.chunks, least, newSize, region, p.live[i]);
        }
        ReplaceApart(p.live, k, c);
      }
      HousedAt(Realloced(p, least, k, newSize, region), k);
  }

  lemma HousedAt(p: Pool, k: nat)
    requires k < |p.live|
    ensures Inv(p) ==> Housed(p.chunks, p.live[k])
  {
  }

  lemma ApartBothWays(live: seq<Block>, i: nat, j: nat)
    requires BlocksApart(live) && i < |live| && j < |live| && i != j
    ensures Apart(live[i], live[j])
  {
    assert Apart(live[if i < j then i else j], live[if i < j then j else i]);
  }

  /** A smaller part of a block. */
  lemma ShrunkKeeps(p: Pool, k: nat, newSize: nat)
    requires Inv(p) && k < |p.live| && newSize <= p.live[k].size
    ensures Inv(Pool(p.chunks, p.live[k := Block(p.live[k].ptr, newSize)]))
  {
    var b, c := p.live[k], Block(p.live[k].ptr, newSize);
    var i :| 0 <= i < |p.chunks| && InUsed(p.chunks[i], b);
    assert InUsed(p.chunks[i], c);
    forall i | 0 <= i < |p.live| && i != k ensures Apart(p.live[i], c) {
      ApartBothWays(p.live, i, k);
    }
    ReplaceApart(p.live, k, c);
    hide ChunksOk;
  }

  // ---------------------------------------------------------------------------
  // Contents
  // ---------------------------------------------------------------------------

  type Memory = nat -> int

  /** memcpy */
  function Copied(m: Memory, to: nat, from: nat, n: nat): Memory {
    (a: nat) => if to <= a < to + n then m(from + a - to) else m(a)
  }

  function Contents(m: Memory, b: Block): seq<int> { seq(b.size, i requires 0 <= i => m(b.ptr + i)) }

  /** The memory after Realloc. */
  function ReallocMemory(m: Memory, cs: seq<Chunk>, least: nat, b: Block, newSize: nat, region: nat): Memory
    requires cs != []
  {
    if ResizingOf(cs, b, newSize).Moved? then Copied(m, MallocPtr(cs, least, newSize, region), b.ptr, b.size) else m
  }

  lemma CopyLeaves(m: Memory, to: nat, from: nat, n: nat, b: Block)
    requires Apart(b, Block(to, n))
    ensures Contents(Copied(m, to, from, n), b) == Contents(m, b)
  {
  }

  /** The copy does not overlap its source. */
  lemma CopyIsSound(cs: seq<Chunk>, least: nat, b: Block, newSize: nat, region: nat)
    requires ChunksOk(cs) && GoodRegion(cs, least, Align(newSize), region) && Housed(cs, b)
    requires b.size < newSize <= MAX_BLOCK
    ensures Apart(b, Block(MallocPtr(cs, least, newSize, region), b.size))
  {
    hide MallocPtr, MallocChunks, ChunksOk, Housed, GoodRegion, Align;
    OthersOfMalloc(cs, least, newSize, region, b);
  }

  /** Realloc keeps the old contents of its block, and the contents of all others. */
  lemma ReallocKeepsContents(p: Pool, m: Memory, least: nat, k: nat, newSize: nat, region: nat)
    requires Inv(p) && p.chunks != [] && k < |p.live| && Resizable(p.chunks, p.live[k], newSize)
    requires ResizingOf(p.chunks, p.live[k], newSize).Moved? ==> GoodRegion(p.chunks, least, Align(newSize), region)
    ensures var q := Realloced(p, least, k, newSize, region);
      var n := ReallocMemory(m, p.chunks, least, p.live[k], newSize, region);
      && (forall i :: 0 <= i < |p.live| && i != k ==>
        q.live[i] == p.live[i] && Contents(n, q.live[i]) == Contents(m, p.live[i]))
      && (var kept := if newSize < p.live[k].size then newSize else p.live[k].size;
          Contents(n, q.live[k])[..kept] == Contents(m, p.live[k])[..kept])
  {
    hide ChunksOk, GoodRegion, Align, MallocChunks, MallocPtr, Housed, Apart, GrowsInPlace, Full, Taken;
    var b := p.live[k];
    if ResizingOf(p.chunks, b, newSize).Moved? {
      var to := MallocPtr(p.chunks, least, newSize, region);
      forall i | 0 <= i < |p.live| && i != k
        ensures Contents(Copied(m, to, b.ptr, b.size), p.live[i]) == Contents(m, p.live[i])
      {
        OthersOfMalloc(p.chunks, least, newSize, region, p.live[i]);
        ShorterApart(p.live[i], to, newSize, b.size);
        CopyLeaves(m, to, b.ptr, b.size, p.live[i]);
      }
    }
  }

  lemma ShorterApart(a: Block, ptr: nat, size: nat, n: nat)
    requires Apart(a, Block(ptr, size)) && n <= size
    ensures Apart(a, Block(ptr, n))
  {
  }

  // ---------------------------------------------------------------------------
  // Any sequence of calls
  // ---------------------------------------------------------------------------

  /** A call, and the region that the base allocator would return. */
  datatype Op = Malloc(size: nat, region: nat) | Realloc(k: nat, newSize: nat, region: nat)

  /** The caller resizes a live block; sizes fit; the base allocator returns fresh memory. */
  ghost predicate Proper(p: Pool, least: nat, op: Op) {
    match op
    case Malloc(size, region) => size <= MAX_BLOCK && GoodRegion(p.chunks, least, Align(size), region)
    case Realloc(k, newSize, region) =>
      && k < |p.live| && p.chunks != [] && Resizable(p.chunks, p.live[k], newSize)
      && (ResizingOf(p.chunks, p.live[k], newSize).Moved? ==> GoodRegion(p.chunks, least, Align(newSize), region))
  }

  function Applied(p: Pool, least: nat, op: Op): Pool {
    match op
    case Malloc(size, region) => Malloced(p, least, size, region)
    case Realloc(k, newSize, region) =>
      if k < |p.live| && p.chunks != [] then Realloced(p, least, k, newSize, region) else p
  }

  function Run(p: Pool, least: nat, ops: seq<Op>): Pool {
    if ops == [] then p else Applied(Run(p, least, ops[..|ops| - 1]), least, ops[|ops| - 1])
  }

  /** After any sequence of calls, live blocks are apart and each in the used part of one chunk. */
  lemma {:induction false} EveryRunKeeps(p: Pool, least: nat, ops: seq<Op>)
    requires Inv(p) && forall i :: 0 <= i < |ops| ==> Proper(Run(p, least, ops[..i]), least, ops[i])
    ensures Inv(Run(p, least, ops))
  {
    hide Inv, Proper, Applied;
    if ops != [] {
      var before := ops[..|ops| - 1];
      assert forall i :: 0 <= i < |before| ==> before[..i] == ops[..i];
      EveryRunKeeps(p, least, before);
      AppliedKeeps(Run(p, least, before), least, ops[|ops| - 1]);
    }
  }

  lemma AppliedKeeps(p: Pool, least: nat, op: Op)
    requires Inv(p) && Proper(p, least, op)
    ensures Inv(Applied(p, least, op))
  {
    hide Inv, Malloced, Realloced, GoodRegion;
    match op
    case Malloc(size, region) => MallocKeepsIff(p, least, size, region);
    case Realloc(k, newSize, region) => ReallocKeepsIff(p, least, k, newSize, region);
  }

  /** A pool without chunks, and one whose only chunk is the user's buffer. */
  lemma NewPoolsKeep(buffer: nat, size: nat)
    requires buffer > 0 && HEADER < size && buffer + size <= ADDRESS_LIMIT
    ensures Inv(Pool([], [])) && Inv(Pool([Chunk(buffer, size - HEADER, 0)], []))
  {
  }

  /** A size of 2^32 reserves nothing: the next block gets the same pointer. */
  lemma TruncatedSizesOverlap()
    ensures var p := Pool([Chunk(8, DEFAULT_CHUNK_CAPACITY, 0)], []);
      var q := Malloced(Malloced(p, DEFAULT_CHUNK_CAPACITY, TWO32, 0), DEFAULT_CHUNK_CAPACITY, 4, 0);
      Inv(p) && |q.live| == 2 && q.live[0] == Block(32, TWO32) && q.live[1] == Block(32, 4) &&
        !Apart(q.live[0], q.live[1])
  {
    assert Align(TWO32) == 0 && Align(4) == 4;
    hide Align;
  }

  // ---------------------------------------------------------------------------
  // Where a block goes
  // ---------------------------------------------------------------------------

  /** Sizes up to 0xFFFFFFFC go up to the next multiple of four; the upper half of a larger one is lost. */
  lemma AlignIs(x: nat)
    ensures Align(x) % 4 == 0
    ensures x <= 0xFFFF_FFFC ==> x <= Align(x) <= x + 3
    ensures Align(x + 0x1_0000_0000) == Align(x)
  {
    AlignRoundsUpIff(x);
  }

  /**
   A block goes to the mark of the first chunk when the rest of it is enough, and otherwise to the
   beginning of a new chunk, which is as large as the pool was told or as the block needs.
   */
  lemma MallocIs(cs: seq<Chunk>, least: nat, size: nat, region: nat)
    ensures var n := Align(size);
      if cs != [] && cs[0].size + n <= cs[0].capacity then
        && MallocChunks(cs, least, size, region) == cs[0 := Chunk(cs[0].addr, cs[0].capacity, cs[0].size + n)]
        && MallocPtr(cs, least, size, region) == cs[0].addr + 24 + cs[0].size
      else
        && MallocChunks(cs, least, size, region) == [Chunk(region, if least > n then least else n, n)] + cs
        && MallocPtr(cs, least, size, region) == region + 24
  {
    hide Align;
  }

  /**
   A block that shrinks stays; so does one that ends at the mark and has room to grow, and the mark
   moves by the growth alone; any other is allocated anew.
   */
  lemma ReallocIs(cs: seq<Chunk>, least: nat, b: Block, newSize: nat, region: nat)
    requires cs != []
    ensures var chunks, ptr := ReallocChunks(cs, least, b, newSize, region), ReallocPtr(cs, least, b, newSize, region);
      if newSize <= b.size then chunks == cs && ptr == b.ptr
      else
        var n := Align(newSize - b.size);
        if b.ptr + b.size == cs[0].addr + 24 + cs[0].size && cs[0].size + n <= cs[0].capacity then
          chunks == cs[0 := Chunk(cs[0].addr, cs[0].capacity, cs[0].size + n)] && ptr == b.ptr
        else
          chunks == MallocChunks(cs, least, newSize, region) && ptr == MallocPtr(cs, least, newSize, region)
  {
    hide Align, MallocChunks, MallocPtr;
  }

  /** Everything lies at multiples of four. */
  ghost predicate Aligned(p: Pool) {
    && (forall i :: 0 <= i < |p.chunks| ==> p.chunks[i].addr % 4 == 0 && p.chunks[i].size % 4 == 0)
    && forall i :: 0 <= i < |p.live| ==> p.live[i].ptr % 4 == 0
  }

  lemma MallocAligned(cs: seq<Chunk>, least: nat, size: nat, region: nat)
    requires Aligned(Pool(cs, [])) && region % 4 == 0
    ensures Aligned(Pool(MallocChunks(cs, least, size, region), [])) && MallocPtr(cs, least, size, region) % 4 == 0
  {
    MallocIs(cs, least, size, region);
    hide MallocChunks, MallocPtr, Align;
  }

  lemma TakenAligned(cs: seq<Chunk>, n: nat)
    requires cs != [] && Aligned(Pool(cs, [])) && n % 4 == 0
    ensures Aligned(Pool(Taken(cs, n), []))
  {
    assert cs[0].size % 4 == 0 && (cs[0].size + n) % 4 == 0;
  }

  lemma ReallocAligned(cs: seq<Chunk>, least: nat, b: Block, newSize: nat, region: nat)
    requires cs != [] && Aligned(Pool(cs, [])) && b.ptr % 4 == 0 && region % 4 == 0
    ensures Aligned(Pool(ReallocChunks(cs, least, b, newSize, region), []))
    ensures ReallocPtr(cs, least, b, newSize, region) % 4 == 0
  {
    hide MallocChunks, MallocPtr, Align, Aligned, Taken, GrowsInPlace;
    if b.size < newSize {
      TakenAligned(cs, Align(newSize - b.size));
      MallocAligned(cs, least, newSize, region);
    }
  }

  lemma AppliedAligned(p: Pool, least: nat, op: Op)
    requires Aligned(p) && op.region % 4 == 0
    ensures Aligned(Applied(p, least, op))
  {
    hide MallocChunks, MallocPtr, ReallocChunks, ReallocPtr;
    match op
    case Malloc(size, region) => MallocAligned(p.chunks, least, size, region);
    case Realloc(k, newSize, region) =>
      if k < |p.live| && p.chunks != [] {
        ReallocAligned(p.chunks, least, p.live[k], newSize, region);
      }
  }

  /** Every pointer that any sequence of calls returns is a multiple of four, if the base allocator's are. */
  lemma {:induction false} EveryRunAligned(p: Pool, least: nat, ops: seq<Op>)
    requires Aligned(p) && forall i :: 0 <= i < |ops| ==> ops[i].region % 4 == 0
    ensures Aligned(Run(p, least, ops))
  {
    hide Aligned, Applied;
    if ops != [] {
      EveryRunAligned(p, least, ops[..|ops| - 1]);
      AppliedAligned(Run(p, least, ops[..|ops| - 1]), least, ops[|ops| - 1]);
    }
  }

  // ---------------------------------------------------------------------------
  // The allocator
  // ---------------------------------------------------------------------------

  class ChunkHeader {
    const addr: nat
    var capacity: nat
    var size: nat
    var next: ChunkHeader?

    constructor (addr: nat, capacity: nat, next: ChunkHeader?)
      ensures this.addr == addr && this.capacity == capacity && size == 0 && this.next == next
    {
      this.addr, this.capacity, size, this.next := addr, capacity, 0, next;
    }

    function View(): Chunk
      reads this
    {
      Chunk(addr, capacity, size)
    }
  }

  ghost function ChunksOf(list: seq<ChunkHeader>): (cs: seq<Chunk>)
    reads list
    ensures |cs| == |list| && forall i :: 0 <= i < |list| ==> cs[i] == list[i].View()
  {
    seq(|list|, i requires 0 <= i < |list| reads list => list[i].View())
  }

  lemma NowRoomy(before: seq<Chunk>, cs: seq<Chunk>, least: nat, n: nat, region: nat)
    requires cs == if Full(before, n) then [Chunk(region, Larger(least, n), 0)] + before else before
    ensures cs == WithRoom(before, least, n, region)
  {
  }

  lemma Shorter(cs: seq<Chunk>, k: nat)
    requires k < |cs|
    ensures cs[k..] != [] && cs[k..][0] == cs[k] && cs[k..][1..] == cs[k + 1..]
  {
  }

  class MemoryPoolAllocator {
    var chunkHead: ChunkHeader?
    const chunkCapacity: nat
    const userBuffer: nat    // 0 is the null pointer
    var memory: Memory
    ghost var list: seq<ChunkHeader>

    /** The list that the next pointers make. */
    ghost predicate Valid()
      reads this, list
    {
      && chunkHead == At(0)
      && (forall i: nat {:trigger list[i].next} :: i < |list| ==> list[i].next == At(i + 1))
      && (forall i, j :: 0 <= i < j < |list| ==> list[i] != list[j])
    }

    ghost function At(i: nat): ChunkHeader?
      reads this
    {
      if i < |list| then list[i] else null
    }

    ghost function Chunks(): seq<Chunk>
      reads this, list
    {
      ChunksOf(list)
    }

    constructor (chunkCapacity: nat, memory: Memory)
      ensures Valid() && Chunks() == [] && this.chunkCapacity == chunkCapacity && userBuffer == 0 &&
        this.memory == memory
    {
      chunkHead, list := null, [];
      this.chunkCapacity, this.memory, userBuffer := chunkCapacity, memory, 0;
    }

    constructor WithBuffer(buffer: nat, size: nat, chunkCapacity: nat, memory: Memory)
      requires buffer != 0 && size > HEADER
      ensures Valid() && Chunks() == [Chunk(buffer, size - HEADER, 0)] && fresh(list)
      ensures this.chunkCapacity == chunkCapacity && userBuffer == buffer && this.memory == memory
    {
      var header := new ChunkHeader(buffer, size - HEADER, null);
      chunkHead, list := header, [header];
      this.chunkCapacity, this.memory, userBuffer := chunkCapacity, memory, buffer;
    }

    method AddChunk(capacity: nat, region: nat)
      requires Valid()
      modifies this`chunkHead, this`list
      ensures Valid() && Chunks() == [Chunk(region, capacity, 0)] + old(Chunks())
      ensures list != [] && fresh(list[0]) && list[1..] == old(list)
    {
      var chunk := new ChunkHeader(region, capacity, chunkHead);
      chunkHead := chunk;
      list := [chunk] + list;
    }

    method Malloc(size: nat, region: nat) returns (ptr: nat)
      requires Valid()
      modifies this`chunkHead, this`list, list
      ensures Valid() && forall c :: c in list && c !in old(list) ==> fresh(c)
      ensures Chunks() == MallocChunks(old(Chunks()), chunkCapacity, size, region)
      ensures ptr == MallocPtr(old(Chunks()), chunkCapacity, size, region)
    {
      hide Align, Taken, WithRoom;
      var n := Align(size);
      assert Full(Chunks(), n) <==> chunkHead == null || chunkHead.size + n > chunkHead.capacity;
      if chunkHead == null || chunkHead.size + n > chunkHead.capacity {
        AddChunk(if chunkCapacity > n then chunkCapacity else n, region);
      }
      NowRoomy(old(Chunks()), Chunks(), chunkCapacity, n, region);
      hide *;
      ptr := Take(n);
    }

    /** Moves the mark of the first chunk. */
    method Take(n: nat) returns (ptr: nat)
      requires Valid() && list != []
      modifies {list[0]}
      ensures Valid() && Chunks() == Taken(old(Chunks()), n) && ptr == Mark(old(Chunks()))
    {
      ptr := chunkHead.addr + HEADER + chunkHead.size;
      chunkHead.size := chunkHead.size + n;
    }

    method Realloc(original: Block, newSize: nat, region: nat) returns (ptr: nat)
      requires Valid() && (original.ptr != 0 ==> chunkHead != null)
      modifies this`chunkHead, this`list, this`memory, list
      ensures Valid() && forall c :: c in list && c !in old(list) ==> fresh(c)
      ensures if original.ptr == 0
        then Chunks() == MallocChunks(old(Chunks()), chunkCapacity, newSize, region)
        else old(Chunks()) != [] && Chunks() == ReallocChunks(old(Chunks()), chunkCapacity, original, newSize, region)
      ensures if original.ptr == 0
        then ptr == MallocPtr(old(Chunks()), chunkCapacity, newSize, region) && memory == old(memory)
        else (old(Chunks()) != []
          && ptr == ReallocPtr(old(Chunks()), chunkCapacity, original, newSize, region)
          && memory == ReallocMemory(old(memory), old(Chunks()), chunkCapacity, original, newSize, region))
    {
      hide Align, MallocChunks, MallocPtr, Copied, ResizingOf;
      if original.ptr == 0 {
        ptr := Malloc(newSize, region);
        return;
      }
      ptr := original.ptr;
      var done := GrowInPlace(original, newSize);
      if !done {
        ptr := Malloc(newSize, region);
        memory := Copied(memory, ptr, original.ptr, original.size);
      }
    }

    /** The first half of Realloc: false when the block has to move. */
    method GrowInPlace(original: Block, newSize: nat) returns (done: bool)
      requires Valid() && chunkHead != null
      modifies list
      ensures Valid() && old(Chunks()) != []
      ensures done == !ResizingOf(old(Chunks()), original, newSize).Moved?
      ensures match ResizingOf(old(Chunks()), original, newSize)
        case InPlace => Chunks() == Taken(old(Chunks()), Align(newSize - original.size))
        case _ => Chunks() == old(Chunks())
    {
      hide Align;
      assert Chunks() != [];
      if original.size >= newSize {
        return true;
      }
      if original.ptr == chunkHead.addr + HEADER + chunkHead.size - original.size {
        var increment := Align(newSize - original.size);
        if chunkHead.size + increment <= chunkHead.capacity {
          var _ := Take(increment);
          return true;
        }
      }
      return false;
    }

    /** Capacity() */
    method Capacity() returns (total: nat)
      requires Valid()
      ensures total == SumOf(Chunks(), (c: Chunk) => c.capacity)
    {
      total := 0;
      var c := chunkHead;
      ghost var i := 0;
      while c != null
        invariant i <= |list| && c == At(i)
        invariant total + SumOf(Chunks()[i..], (c: Chunk) => c.capacity) == SumOf(Chunks(), (c: Chunk) => c.capacity)
        decreases |list| - i
      {
        assert Chunks()[i] == c.View();
        total := total + c.capacity;
        c := c.next;
        i := i + 1;
      }
    }

    method Size() returns (total: nat)
      requires Valid()
      ensures total == SumOf(Chunks(), (c: Chunk) => c.size)
    {
      total := 0;
      var c := chunkHead;
      ghost var i := 0;
      while c != null
        invariant i <= |list| && c == At(i)
        invariant total + SumOf(Chunks()[i..], (c: Chunk) => c.size) == SumOf(Chunks(), (c: Chunk) => c.size)
        decreases |list| - i
      {
        assert Chunks()[i] == c.View();
        total := total + c.size;
        c := c.next;
        i := i + 1;
      }
    }

    /** Frees chunk after chunk up to the user's buffer, whose mark stays where it is. */
    method Clear() returns (ghost freed: seq<Chunk>)
      requires Valid()
      modifies this`chunkHead, this`list
      ensures Valid() && old(Chunks()) == freed + Chunks()
      ensures forall i :: 0 <= i < |freed| ==> freed[i].addr != userBuffer
      ensures Chunks() == [] || Chunks()[0].addr == userBuffer
    {
      hide Valid, AtUserBuffer, ChunksOf;
      ghost var was, k := Chunks(), 0;
      while !AtUserBuffer()
        invariant Valid() && k <= |was| && Chunks() == was[k..]
        invariant forall i :: 0 <= i < k ==> was[i].addr != userBuffer
        decreases |list|
      {
        FreeFirst();
        Shorter(was, k);
        k := k + 1;
      }
      freed := was[..k];
    }

    predicate AtUserBuffer()
      requires Valid()
      reads this, list
      ensures AtUserBuffer() <==> Chunks() == [] || Chunks()[0].addr == userBuffer
    {
      chunkHead == null || chunkHead.addr == userBuffer
    }

    method FreeFirst()
      requires Valid() && list != []
      modifies this`chunkHead, this`list
      ensures Valid() && list == old(list)[1..] && Chunks() == old(Chunks())[1..]
    {
      var next := chunkHead.next;
      list := list[1..];
      chunkHead := next;
    }
  }

  function SumOf(cs: seq<Chunk>, f: Chunk -> nat): nat {
    if cs == [] then 0 else f(cs[0]) + SumOf(cs[1..], f)
  }

  /** What is used never exceeds what there is. */
  lemma {:induction false} SizeWithinCapacity(cs: seq<Chunk>)
    requires forall i :: 0 <= i < |cs| ==> ChunkOk(cs[i])
    ensures SumOf(cs, (c: Chunk) => c.size) <= SumOf(cs, (c: Chunk) => c.capacity)
  {
    if cs != [] {
      assert ChunkOk(cs[0]);
      SizeWithinCapacity(cs[1..]);
    }
  }

  lemma {:induction false} SumIs(cs: seq<Chunk>, c: Chunk, f: Chunk -> nat)
    ensures SumOf([], f) == 0 && SumOf(cs + [c], f) == SumOf(cs, f) + f(c)
  {
    if cs == [] {
      assert cs + [c] == [c] && [c][1..] == [];
    } else {
      assert (cs + [c])[1..] == cs[1..] + [c];
      SumIs(cs[1..], c, f);
    }
  }
}
