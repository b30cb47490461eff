/** The effect of a write, block by block and byte by byte. */
module Bytes {
  import opened Base
  import opened FileMap
  import opened Ownership
  import opened Growth
  import opened Files

  /** A block with a chunk of bytes copied over it. */
  function Splice(s: Sector, off: nat, chunk: seq<byte>): (s': Sector)
    requires off + |chunk| <= SECTOR_SIZE
    ensures forall j :: 0 <= j < SECTOR_SIZE ==> s'[j] == if off <= j < off + |chunk| then chunk[j - off] else s[j]
  {
    s[..off] + chunk + s[off + |chunk|..]
  }

  /** The chunk that one turn of the copy loop moves at position pos, with `left` bytes to go. */
  function ChunkSize(pos: nat, left: nat): (n: nat)
    ensures n <= left && pos % SECTOR_SIZE + n <= SECTOR_SIZE && (left > 0 ==> n > 0)
    ensures n == left || (pos + n) % SECTOR_SIZE == 0
  {
    if SECTOR_SIZE - pos % SECTOR_SIZE > left then left else SECTOR_SIZE - pos % SECTOR_SIZE
  }

  /** The block maps of all files but one, and what their blocks hold, are unchanged. */
  ghost predicate OtherBlocks(v: Vol, v': Vol, ino: nat)
    requires |v.inodes| == MAX_INODES == |v'.inodes|
  {
    && (forall i, l :: 0 <= i < MAX_INODES && 0 <= l < MAX_FILE_BLOCKS && i != ino ==>
          Block(v', i, l) == Block(v, i, l))
    && OtherRefs(v, v', ino)
  }

  ghost predicate OtherRefs(v: Vol, v': Vol, ino: nat)
    requires |v.inodes| == MAX_INODES == |v'.inodes|
  {
    forall s :: ValidSlot(s) && s.ino != ino ==> Ref(v', s) == Ref(v, s)
  }

  /** References to blocks are kept, and new ones are data blocks lo..hi of one file and its tables. */
  ghost predicate Extended(v: Vol, v': Vol, ino: nat, lo: nat, hi: nat)
    requires |v.inodes| == MAX_INODES == |v'.inodes|
  {
    && (forall s :: ValidSlot(s) && Ref(v, s) != INVALID ==> Ref(v', s) == Ref(v, s))
    && (forall s :: ValidSlot(s) && Ref(v, s) == INVALID && Ref(v', s) != INVALID ==>
          s.ino == ino && (s.loc.Data? ==> lo <= s.loc.lb < hi))
  }

  /** The first `done` bytes of a write of src at offset have reached the file's blocks. */
  ghost predicate Written(v0: Vol, v: Vol, own: Owners, ino: nat, src: seq<byte>, offset: nat, done: nat)
  {
    && ino < MAX_INODES && done <= |src| && offset + |src| <= MAX_FILE_SIZE
    && Mapping(v, own) && Tracked(v0, v) && SameFiles(v0, v, ino)
    && OtherBlocks(v0, v, ino)
    && Extended(v0, v, ino, offset / SECTOR_SIZE, BlocksFor(offset + done))
    && (forall k :: 0 <= k < MAX_BYTES ==>
          ByteAt(v, ino, k) == if offset <= k < offset + done then src[k - offset] else ByteAt(v0, ino, k))
    && (forall lb :: done > 0 && offset / SECTOR_SIZE <= lb && lb * SECTOR_SIZE < offset + done ==>
          Missing(v, ino, lb) == {})
    && (done == 0 ==> v.freeBlocks == v0.freeBlocks)
    && v.freeBlocks - |MissingRange(v, ino, offset / SECTOR_SIZE, BlocksFor(offset + |src|))| ==
       v0.freeBlocks - |MissingRange(v0, ino, offset / SECTOR_SIZE, BlocksFor(offset + |src|))|
  }

  lemma WrittenNone(v: Vol, own: Owners, ino: nat, src: seq<byte>, offset: nat)
    requires Mapping(v, own) && Shape(v) && ino < MAX_INODES && offset + |src| <= MAX_FILE_SIZE
    ensures Written(v, v, own, ino, src, offset, 0)
  {
    hide Core, Counted, NoHollow, Ref, Missing, ByteAt, BitmapBlocks, Block;
  }

  lemma StoredBytes(v: Vol, v': Vol, own': Owners, ino: nat, lb: nat, off: nat, chunk: seq<byte>, k: nat)
    requires |v.inodes| == MAX_INODES == |v'.inodes| && ino < MAX_INODES && lb < MAX_FILE_BLOCKS && k < MAX_BYTES
    requires off + |chunk| <= SECTOR_SIZE
    requires Stored(v, v', own', ino, lb, Splice(Block(v, ino, lb), off, chunk))
    ensures ByteAt(v', ino, k) ==
            if lb * SECTOR_SIZE + off <= k < lb * SECTOR_SIZE + off + |chunk| then chunk[k - lb * SECTOR_SIZE - off]
            else ByteAt(v, ino, k)
  {
    hide Mapping, Tracked, SameFiles, Filled, Block, Splice;
  }

  lemma ChunkPosition(offset: nat, done: nat, total: nat)
    requires done < total && offset + total <= MAX_FILE_SIZE
    ensures var pos := offset + done;
            var lb, n := pos / SECTOR_SIZE, ChunkSize(pos, total - done);
            && lb * SECTOR_SIZE + pos % SECTOR_SIZE == pos
            && offset / SECTOR_SIZE <= lb < BlocksFor(offset + total) <= MAX_FILE_BLOCKS
            && lb < MAX_FILE_BLOCKS && n > 0
            && BlocksFor(pos + n) == lb + 1 && BlocksFor(pos) <= lb + 1
            && (forall b: nat :: offset / SECTOR_SIZE <= b && b * SECTOR_SIZE < pos + n ==>
                  b == lb || (done > 0 && b * SECTOR_SIZE < pos))
  {
  }

  /** One turn of the write loop. */
  lemma WrittenStep(v0: Vol, v: Vol, own: Owners, v': Vol, own': Owners, ino: nat, src: seq<byte>, offset: nat,
                    done: nat, n: nat)
    requires Written(v0, v, own, ino, src, offset, done) && done < |src| && Shape(v)
    requires n == ChunkSize(offset + done, |src| - done)
    requires (offset + done) / SECTOR_SIZE < MAX_FILE_BLOCKS
    requires Stored(v, v', own', ino, (offset + done) / SECTOR_SIZE,
                    Splice(Block(v, ino, (offset + done) / SECTOR_SIZE), (offset + done) % SECTOR_SIZE,
                        src[done..done + n]))
    ensures Written(v0, v', own', ino, src, offset, done + n)
  {
    hide Mapping, Ref, Block, Splice, Tracked, ByteAt, Missing, MissingRange, BitmapBlocks;
    var pos := offset + done;
    var lb := pos / SECTOR_SIZE;
    ChunkPosition(offset, done, |src|);
    WrittenShape(v0, v, own, ino, src, offset, done);
    StoredShape(v, v', own', ino, lb, Splice(Block(v, ino, lb), pos % SECTOR_SIZE, src[done..done + n]));
    TrackedTransitive(v0, v, v');
    RangeCost(v, v', ino, lb, offset / SECTOR_SIZE, BlocksFor(offset + |src|));
    StoredMissing(v, v', own', ino, lb, Splice(Block(v, ino, lb), pos % SECTOR_SIZE, src[done..done + n]));
    StoredExtended(v0, v, v', own', ino, lb, Splice(Block(v, ino, lb), pos % SECTOR_SIZE, src[done..done + n]),
                   offset / SECTOR_SIZE, BlocksFor(pos), BlocksFor(pos + n));
    forall k | 0 <= k < MAX_BYTES
      ensures ByteAt(v', ino, k) == if offset <= k < offset + done + n then src[k - offset] else ByteAt(v0, ino, k)
    {
      StoredBytes(v, v', own', ino, lb, pos % SECTOR_SIZE, src[done..done + n], k);
    }
  }

  lemma WrittenShape(v0: Vol, v: Vol, own: Owners, ino: nat, src: seq<byte>, offset: nat, done: nat)
    requires Written(v0, v, own, ino, src, offset, done)
    ensures Shape(v0) && Shape(v) && ino < MAX_INODES && Mapping(v, own)
  {
  }

  lemma StoredShape(v: Vol, v': Vol, own': Owners, ino: nat, lb: nat, data: Sector)
    requires Stored(v, v', own', ino, lb, data)
    ensures Shape(v) && Shape(v') && Tracked(v, v')
  {
  }

  /** A stored block has no missing slot, and blocks that had none still have none. */
  lemma StoredMissing(v: Vol, v': Vol, own': Owners, ino: nat, lb: nat, data: Sector)
    requires Stored(v, v', own', ino, lb, data) && Shape(v) && Shape(v')
    ensures Missing(v', ino, lb) == {}
    ensures forall l: nat :: l < MAX_FILE_BLOCKS && Missing(v, ino, l) == {} ==> Missing(v', ino, l) == {}
  {
    hide Mapping, Tracked, SameFiles, Ref, Need, BitmapBlocks, Block;
    forall l: nat | l < MAX_FILE_BLOCKS
      ensures Missing(v', ino, l) == Missing(v, ino, l) - Missing(v, ino, lb)
    {
    }
  }

  lemma StoredExtended(v0: Vol, v: Vol, v': Vol, own': Owners, ino: nat, lb: nat, data: Sector, lo: nat, mid: nat,
                       hi: nat)
    requires Shape(v0) && Shape(v) && Shape(v') && Stored(v, v', own', ino, lb, data)
    requires Extended(v0, v, ino, lo, mid) && lo <= lb < hi && mid <= hi
    ensures Extended(v0, v', ino, lo, hi)
  {
    hide Mapping, Tracked, SameFiles, Ref, BitmapBlocks, Block;
  }

  // -------------------------------------------------------------- the cost

  /** The slots that a write of len bytes at offset has to fill: its exact price in blocks. */
  ghost function SpaceNeeded(v: Vol, ino: nat, offset: nat, len: nat): (locs: set<Loc>)
    requires |v.inodes| == MAX_INODES && ino < MAX_INODES && offset + len <= MAX_FILE_SIZE
  {
    if len == 0 then {} else MissingRange(v, ino, offset / SECTOR_SIZE, BlocksFor(offset + len))
  }

  /** A complete write has spent exactly its price. */
  lemma WrittenCost(v0: Vol, v: Vol, own: Owners, ino: nat, src: seq<byte>, offset: nat)
    requires Written(v0, v, own, ino, src, offset, |src|) && Shape(v0) && Shape(v)
    ensures v.freeBlocks == v0.freeBlocks - |SpaceNeeded(v0, ino, offset, |src|)|
  {
    hide Mapping, Tracked, Block, Extended, ByteAt, Missing, BitmapBlocks;
    if |src| > 0 {
      var lo, hi := offset / SECTOR_SIZE, BlocksFor(offset + |src|);
      forall lb | lo <= lb < hi
        ensures Missing(v, ino, lb) == {}
      {
        assert lb * SECTOR_SIZE < offset + |src|;
      }
      MissingRangeMapped(v, ino, lo, hi);
    }
  }

  /** When a block on the way cannot be had, the price of the whole write was too high. */
  lemma WrittenShort(v0: Vol, v: Vol, own: Owners, ino: nat, src: seq<byte>, offset: nat, done: nat)
    requires Written(v0, v, own, ino, src, offset, done) && Shape(v0) && Shape(v) && done < |src|
    requires (offset + done) / SECTOR_SIZE < MAX_FILE_BLOCKS
    requires v.freeBlocks < |Missing(v, ino, (offset + done) / SECTOR_SIZE)|
    ensures v0.freeBlocks < |SpaceNeeded(v0, ino, offset, |src|)|
  {
    hide Mapping, Tracked, Block, Extended, ByteAt, Missing, BitmapBlocks;
    ChunkPosition(offset, done, |src|);
    var lo, hi, lb := offset / SECTOR_SIZE, BlocksFor(offset + |src|), (offset + done) / SECTOR_SIZE;
    MissingWithin(v, ino, lo, hi, lb);
    SubsetSize(Missing(v, ino, lb), MissingRange(v, ino, lo, hi));
  }

  // ------------------------------------------------- a write that stops early

  /** Some prefix of src has reached the file's blocks; size and time are as before, and nothing else changed. */
  ghost predicate Partial(v0: Vol, v: Vol, own: Owners, ino: nat, src: seq<byte>, offset: nat, done: nat)
  {
    && ino < MAX_INODES && done <= |src|
    && Mapping(v, own) && Tracked(v0, v) && SameFiles(v0, v, ino)
    && OtherBlocks(v0, v, ino)
    && (forall k :: 0 <= k < MAX_BYTES ==>
          ByteAt(v, ino, k) == if offset <= k < offset + done then src[k - offset] else ByteAt(v0, ino, k))
  }

  /** From v to v', blocks may have been linked into a file's map, but no file's contents changed. */
  ghost predicate Kept(v: Vol, v': Vol, own': Owners, ino: nat)
  {
    && ino < MAX_INODES && Mapping(v', own') && Tracked(v, v') && SameFiles(v, v', ino)
    && SameBlocks(v, v') && OtherRefs(v, v', ino)
  }

  lemma PartialKept(v0: Vol, v: Vol, own: Owners, v': Vol, own': Owners, ino: nat, src: seq<byte>, offset: nat,
                    done: nat)
    requires Written(v0, v, own, ino, src, offset, done) && Kept(v, v', own', ino)
    ensures Partial(v0, v', own', ino, src, offset, done)
  {
    hide Mapping, Tracked, Block, Extended, Missing, BitmapBlocks, MissingRange;
    KeptShape(v, v', own', ino);
    WrittenShape(v0, v, own, ino, src, offset, done);
    TrackedTransitive(v0, v, v');
    assert SameFiles(v0, v', ino) && OtherBlocks(v0, v', ino);
    forall k | 0 <= k < MAX_BYTES
      ensures ByteAt(v', ino, k) == ByteAt(v, ino, k)
    {
      assert Block(v', ino, k / SECTOR_SIZE) == Block(v, ino, k / SECTOR_SIZE);
    }
  }

  lemma KeptShape(v: Vol, v': Vol, own': Owners, ino: nat)
    requires Kept(v, v', own', ino)
    ensures Shape(v) && Shape(v')
  {
  }

  // ------------------------------------------- a write that runs out of space

  /** done bytes are in place, and the next block cannot be had. */
  ghost predicate OutOfRoom(v0: Vol, v: Vol, own: Owners, ino: nat, src: seq<byte>, offset: nat, done: nat)
  {
    && Written(v0, v, own, ino, src, offset, done) && done < |src|
    && (offset + done) / SECTOR_SIZE < MAX_FILE_BLOCKS
    && v.freeBlocks < |Missing(v, ino, (offset + done) / SECTOR_SIZE)|
  }

  /** Blocks taken and given back again leave a half-done write as it was. */
  lemma WrittenReserved(v0: Vol, v: Vol, own: Owners, v': Vol, ino: nat, src: seq<byte>, offset: nat, done: nat)
    requires Written(v0, v, own, ino, src, offset, done) && Reserved(v, v', {})
    ensures Shape(v) && Shape(v') && Written(v0, v', own, ino, src, offset, done) && v'.freeBlocks == v.freeBlocks
    ensures forall lb :: 0 <= lb < MAX_FILE_BLOCKS ==> Missing(v', ino, lb) == Missing(v, ino, lb)
  {
    hide Core, Counted, NoHollow, Ref, Block, Tracked, BitmapBlocks, ByteAt, FreeSet, Missing, MissingRange;
    WrittenShape(v0, v, own, ino, src, offset, done);
    ReservedShape(v, v');
    ReservedCore(v, v', own, {});
    SameRefsCounted(v, v');
    TrackedTransitive(v0, v, v');
    MissingSame(v, v', ino);
    MissingRangeSame(v, v', ino, offset / SECTOR_SIZE, BlocksFor(offset + |src|));
    SameBytes(v, v', ino);
  }

  lemma ReservedShape(v: Vol, v': Vol)
    requires Reserved(v, v', {})
    ensures Shape(v) && Shape(v') && Tracked(v, v') && v'.freeBlocks == v.freeBlocks && v'.inodes == v.inodes
            && v'.freeInodes == v.freeInodes
  {
    hide Tracked, FreeSet, BitmapBlocks;
  }

  lemma MissingSame(v: Vol, v': Vol, ino: nat)
    requires |v.inodes| == MAX_INODES == |v'.inodes| && ino < MAX_INODES
    requires forall s :: ValidSlot(s) ==> Ref(v', s) == Ref(v, s)
    ensures forall lb :: 0 <= lb < MAX_FILE_BLOCKS ==> Missing(v', ino, lb) == Missing(v, ino, lb)
  {
    hide Ref;
  }

  lemma {:induction false} MissingRangeSame(v: Vol, v': Vol, ino: nat, lo: nat, hi: nat)
    requires |v.inodes| == MAX_INODES == |v'.inodes| && ino < MAX_INODES && hi <= MAX_FILE_BLOCKS
    requires forall lb :: 0 <= lb < MAX_FILE_BLOCKS ==> Missing(v', ino, lb) == Missing(v, ino, lb)
    ensures MissingRange(v', ino, lo, hi) == MissingRange(v, ino, lo, hi)
    decreases hi
  {
    hide Missing;
    if lo < hi { MissingRangeSame(v, v', ino, lo, hi - 1); }
  }

  lemma SameBytes(v: Vol, v': Vol, ino: nat)
    requires |v.inodes| == MAX_INODES == |v'.inodes| && ino < MAX_INODES && SameBlocks(v, v')
    ensures forall k :: 0 <= k < MAX_BYTES ==> ByteAt(v', ino, k) == ByteAt(v, ino, k)
  {
    hide Block;
  }
}
