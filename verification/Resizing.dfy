/** denyfs_vol_truncate. */
module Resizing {
  import opened Base
  import opened Codec
  import opened FileMap
  import opened Ownership
  import opened Frames
  import opened Growth
  import opened Files
  import opened Bytes
  import opened FileSystem
  import opened FileOps
  import opened Persist
  import opened Shrink
  import opened Volume
  import opened BlockMap
  import opened Flush
  import opened Access
  import opened Truncate

  // ---------------------------------------------------- which blocks go back

  /** Slot l of a file serves some mapped block below nb. */
  ghost predicate Remains(v: Vol, ino: nat, l: Loc, nb: nat)
    requires |v.inodes| == MAX_INODES && ino < MAX_INODES
  {
    exists lb :: 0 <= lb < nb && lb < MAX_FILE_BLOCKS && Phys(v, ino, lb) != INVALID && l in Need(lb)
  }

  /** Exactly the data blocks and tables of a file that serve no block below nb went back to the free set. */
  ghost predicate Restricted(v0: Vol, own0: Owners, v: Vol, own: Owners, ino: nat, nb: nat)
    requires |v0.inodes| == MAX_INODES && ino < MAX_INODES
  {
    && (forall b :: b in own ==> b in own0 && own0[b] == own[b])
    && (forall b :: b in own0 ==> (b in own <==> own0[b].ino == ino ==> Remains(v0, ino, own0[b].loc, nb)))
    && FreeSet(v) == FreeSet(v0) + (own0.Keys - own.Keys)
    && v.freeBlocks == v0.freeBlocks + |own0.Keys - own.Keys|
  }

  /** After a complete cut a slot is in use exactly if it serves a block that stays. */
  lemma CutRemains(v0: Vol, own0: Owners, v: Vol, own: Owners, ino: nat, nb: nat, l: Loc)
    requires Mapping(v0, own0) && Shape(v0) && Shape(v) && ino < MAX_INODES && ValidLoc(l)
    requires Cutting(v0, v, own, ino, nb, MAX_FILE_BLOCKS, {})
    ensures Ref(v, Slot(ino, l)) != INVALID <==> Remains(v0, ino, l, nb)
  {
    hide Core, Ref, Block, BitmapBlocks, Tracked, SameFiles, OtherBlocks, Counted, NoHollow;
    CuttingShape(v0, v, own, ino, nb, MAX_FILE_BLOCKS, {});
    if Remains(v0, ino, l, nb) {
      var lb :| 0 <= lb < nb && lb < MAX_FILE_BLOCKS && Phys(v0, ino, lb) != INVALID && l in Need(lb);
      MappedMissing(v, own, ino, lb);
      assert l !in Missing(v, ino, lb);
    }
    if Ref(v, Slot(ino, l)) != INVALID {
      var lb := ServedBlock(v, ino, l);
      assert Phys(v, ino, lb) == Phys(v0, ino, lb);
    }
  }

  /** Some mapped block needs a slot that is in use. */
  lemma ServedBlock(v: Vol, ino: nat, l: Loc) returns (lb: nat)
    requires Shape(v) && ino < MAX_INODES && ValidLoc(l) && Ref(v, Slot(ino, l)) != INVALID && NoHollow(v, {})
    ensures lb < MAX_FILE_BLOCKS && Phys(v, ino, lb) != INVALID && l in Need(lb)
    decreases if l.Data? then 0 else if l.Dbl? then 2 else 1
  {
    hide Ref, BitmapBlocks;
    if l.Data? {
      lb := l.lb;
    } else {
      var i: nat :| i < POINTERS_PER_BLOCK && EntryUsed(v, Slot(ino, l), i);
      EntryLocHome(l, i);
      lb := ServedBlock(v, ino, EntryLoc(l, i));
    }
  }

  lemma CutRestricts(v0: Vol, own0: Owners, v: Vol, own: Owners, ino: nat, nb: nat)
    requires Mapping(v0, own0) && Shape(v0) && ino < MAX_INODES
    requires Cutting(v0, v, own, ino, nb, MAX_FILE_BLOCKS, {})
    ensures Restricted(v0, own0, v, own, ino, nb)
  {
    hide *;
    CuttingShape(v0, v, own, ino, nb, MAX_FILE_BLOCKS, {});
    CutOwners(v0, own0, v, own, ino, nb);
    TrackedArea(v0, v);
    CutFree(v0, own0, v, own);
    RestrictedIntro(v0, own0, v, own, ino, nb);
  }

  lemma RestrictedIntro(v0: Vol, own0: Owners, v: Vol, own: Owners, ino: nat, nb: nat)
    requires |v0.inodes| == MAX_INODES && ino < MAX_INODES
    requires forall b :: b in own ==> b in own0 && own0[b] == own[b]
    requires forall b :: b in own0 ==> (b in own <==> own0[b].ino == ino ==> Remains(v0, ino, own0[b].loc, nb))
    requires FreeSet(v) == FreeSet(v0) + (own0.Keys - own.Keys)
             && v.freeBlocks == v0.freeBlocks + |own0.Keys - own.Keys|
    ensures Restricted(v0, own0, v, own, ino, nb)
  {
    hide Remains, FreeSet;
  }

  lemma CutOwners(v0: Vol, own0: Owners, v: Vol, own: Owners, ino: nat, nb: nat)
    requires Mapping(v0, own0) && Shape(v0) && Shape(v) && ino < MAX_INODES
    requires Cutting(v0, v, own, ino, nb, MAX_FILE_BLOCKS, {})
    ensures forall b :: b in own ==> b in own0 && own0[b] == own[b]
    ensures forall b :: b in own0 ==> (b in own <==> own0[b].ino == ino ==> Remains(v0, ino, own0[b].loc, nb))
  {
    hide Ref, Block, BitmapBlocks, Tracked, SameFiles, OtherBlocks, Counted, NoHollow, FreeSet, BitsExact, Remains,
         Cutting;
    CuttingShape(v0, v, own, ino, nb, MAX_FILE_BLOCKS, {});
    CutSlots(v0, v, own, ino, nb);
    forall b | b in own
      ensures b in own0 && own0[b] == own[b]
    {
      assert Ref(v, own[b]) == b;
      assert Ref(v0, own[b]) == b;
    }
    forall b | b in own0
      ensures b in own <==> own0[b].ino == ino ==> Remains(v0, ino, own0[b].loc, nb)
    {
      var s := own0[b];
      assert Ref(v0, s) == b && ValidSlot(s);
      if s.ino == ino { CutRemains(v0, own0, v, own, ino, nb, s.loc); }
      if b in own { assert Ref(v, own[b]) == b && Ref(v0, own[b]) == b; }
    }
  }

  /** A slot still in use refers to the block it referred to, and other files' slots are untouched. */
  lemma CutSlots(v0: Vol, v: Vol, own: Owners, ino: nat, nb: nat)
    requires Shape(v0) && Shape(v) && ino < MAX_INODES
    requires Cutting(v0, v, own, ino, nb, MAX_FILE_BLOCKS, {})
    ensures forall s :: ValidSlot(s) && Ref(v, s) != INVALID ==> Ref(v, s) == Ref(v0, s)
    ensures forall s :: ValidSlot(s) && s.ino != ino ==> Ref(v, s) == Ref(v0, s)
  {
    hide Core, Ref, Block, BitmapBlocks, Tracked, SameFiles, OtherBlocks, Counted, NoHollow;
    forall s | ValidSlot(s) && Ref(v, s) != INVALID
      ensures Ref(v, s) == Ref(v0, s)
    {
      if s.ino == ino && s.loc.Data? {
        var lb := s.loc.lb;
        assert Phys(v, ino, lb) == Phys(v0, ino, lb);
      }
    }
  }

  /** With fewer owners over the same data area, the blocks no longer owned are free. */
  lemma CutFree(v0: Vol, own0: Owners, v: Vol, own: Owners)
    requires Mapping(v0, own0) && Core(v, own, {}) && v.total == v0.total && v.dataStart == v0.dataStart
    requires forall b :: b in own ==> b in own0
    ensures FreeSet(v) == FreeSet(v0) + (own0.Keys - own.Keys)
    ensures v.freeBlocks == v0.freeBlocks + |own0.Keys - own.Keys|
  {
    hide *;
    var none: set<nat> := {};
    MappingFacts(v0, own0);
    DataAreaSplit(v0, own0, none);
    DataAreaSplit(v, own, none);
    SplitDifference(Interval(v.dataStart, v.total), FreeSet(v0), own0.Keys, FreeSet(v), own.Keys);
  }

  lemma TrackedArea(v: Vol, v': Vol)
    requires Tracked(v, v')
    ensures v'.total == v.total && v'.dataStart == v.dataStart
  {
  }

  lemma SplitDifference(area: set<nat>, free0: set<nat>, own0: set<nat>, free: set<nat>, own: set<nat>)
    requires area == free0 + own0 + {} == free + own + {} && free0 !! own0 && free !! own && own <= own0
    ensures free == free0 + (own0 - own) && |free| == |free0| + |own0 - own|
  {
  }

  // ------------------------------------------------------------ the tail block

  /** From v0 to v, the bytes from c to the end of c's block were zeroed, and nothing else changed. */
  ghost predicate TailZeroed(v0: Vol, v: Vol, own: Owners, ino: nat, c: nat)
  {
    && ino < MAX_INODES && c <= MAX_BYTES
    && Mapping(v, own) && Tracked(v0, v) && SameSpace(v0, v)
    && v.inodes == v0.inodes && v.freeInodes == v0.freeInodes && OtherBlocks(v0, v, ino)
    && (forall s :: ValidSlot(s) ==> Ref(v, s) == Ref(v0, s))
    && (forall k :: 0 <= k < MAX_BYTES ==>
          ByteAt(v, ino, k) == if c <= k < BlocksFor(c) * SECTOR_SIZE then 0 else ByteAt(v0, ino, k))
  }

  function Zeros(n: nat): (s: seq<byte>)
    ensures |s| == n && forall i :: 0 <= i < n ==> s[i] == 0
  {
    seq(n, _ => 0)
  }

  lemma TailWhole(v: Vol, own: Owners, ino: nat, c: nat)
    requires Mapping(v, own) && ino < MAX_INODES && c <= MAX_BYTES && c % SECTOR_SIZE == 0
    ensures TailZeroed(v, v, own, ino, c)
  {
    hide Core, Counted, NoHollow, Ref, ByteAt, Block;
    MappingFacts(v, own);
  }

  lemma TailPosition(c: nat)
    requires c <= MAX_FILE_SIZE && c % SECTOR_SIZE != 0
    ensures c / SECTOR_SIZE < MAX_FILE_BLOCKS && BlocksFor(c) == c / SECTOR_SIZE + 1
    ensures c / SECTOR_SIZE * SECTOR_SIZE + c % SECTOR_SIZE == c && c % SECTOR_SIZE < SECTOR_SIZE
    ensures c <= MAX_BYTES
  {
  }

  lemma TailHole(v: Vol, own: Owners, ino: nat, c: nat)
    requires Mapping(v, own) && Shape(v) && ino < MAX_INODES && c <= MAX_FILE_SIZE && c % SECTOR_SIZE != 0
    requires c / SECTOR_SIZE < MAX_FILE_BLOCKS && Block(v, ino, c / SECTOR_SIZE) == ZeroSector()
    ensures TailZeroed(v, v, own, ino, c)
  {
    hide Mapping, Ref, ByteAt, Block, BlocksFor;
    MappingFacts(v, own);
    TailPosition(c);
    forall k | 0 <= k < MAX_BYTES
      ensures c <= k < BlocksFor(c) * SECTOR_SIZE ==> ByteAt(v, ino, k) == 0
    {
      ZeroBlockByte(v, ino, c, k);
    }
  }

  lemma ZeroBlockByte(v: Vol, ino: nat, c: nat, k: nat)
    requires Shape(v) && ino < MAX_INODES && c <= MAX_FILE_SIZE && c % SECTOR_SIZE != 0 && k < MAX_BYTES
    requires c / SECTOR_SIZE < MAX_FILE_BLOCKS && Block(v, ino, c / SECTOR_SIZE) == ZeroSector()
    ensures c <= k < BlocksFor(c) * SECTOR_SIZE ==> ByteAt(v, ino, k) == 0
  {
    hide Block, BitmapBlocks;
    TailPosition(c);
  }

  lemma TailStored(v: Vol, own: Owners, v': Vol, ino: nat, c: nat)
    requires Shape(v) && Shape(v') && ino < MAX_INODES && c <= MAX_FILE_SIZE && c % SECTOR_SIZE != 0
    requires c / SECTOR_SIZE < MAX_FILE_BLOCKS
    requires Stored(v, v', own, ino, c / SECTOR_SIZE,
                    Splice(Block(v, ino, c / SECTOR_SIZE), c % SECTOR_SIZE, Zeros(SECTOR_SIZE - c % SECTOR_SIZE)))
    requires SameSpace(v, v') && Filled(v, v', ino, {}) && v'.inodes == v.inodes
    ensures TailZeroed(v, v', own, ino, c)
  {
    hide Mapping, Ref, ByteAt, Tracked, Block, BitmapBlocks, Splice, Missing;
    TailPosition(c);
    forall k | 0 <= k < MAX_BYTES
      ensures ByteAt(v', ino, k) == if c <= k < BlocksFor(c) * SECTOR_SIZE then 0 else ByteAt(v, ino, k)
    {
      StoredBytes(v, v', own, ino, c / SECTOR_SIZE, c % SECTOR_SIZE, Zeros(SECTOR_SIZE - c % SECTOR_SIZE), k);
    }
  }

  /** Zeroes the rest of the block that will be the file's last, so that growing it again reveals nothing. */
  method ZeroTailBlock(vol: DenyVolume, ino: nat, c: nat, ghost own: Owners) returns (st: Status)
    requires vol.Valid() && Mapping(vol.View(), own) && ino < MAX_INODES && c <= MAX_FILE_SIZE && c % SECTOR_SIZE != 0
    modifies vol.Footprint()
    ensures vol.Valid()
    ensures st == OK ==> TailZeroed(old(vol.View()), vol.View(), own, ino, c)
    ensures st != OK ==> vol.View() == old(vol.View())
    ensures vol.Reliable() ==> st == OK
  {
    hide *;
    ghost var v := vol.View();
    MappingFacts(v, own);
    TailPosition(c);
    var block;
    st, block := GetFileDataBlock(vol, ino, c / SECTOR_SIZE, own);
    if st != OK {
      return;
    }
    if block == INVALID {
      HoleIsZero(v, ino, c / SECTOR_SIZE);
      TailHole(v, own, ino, c);
      return;
    }
    var zeros := Zeros(SECTOR_SIZE - c % SECTOR_SIZE);
    DataWrite(v, own, ino, c / SECTOR_SIZE, Splice(Block(v, ino, c / SECTOR_SIZE), c % SECTOR_SIZE, zeros));
    st := ModifyBlock(vol, ino, c / SECTOR_SIZE, block, c % SECTOR_SIZE, zeros, own);
    if st != OK {
      st := EIO;
      return;
    }
    StoredShape(v, vol.View(), own, ino, c / SECTOR_SIZE,
                Splice(Block(v, ino, c / SECTOR_SIZE), c % SECTOR_SIZE, zeros));
    TailStored(v, own, vol.View(), ino, c);
  }

  // --------------------------------------------------------------- the effect

  /** A file's bytes cut to n, or extended to n with zeros. */
  function Resize(c: seq<byte>, n: nat): (c': seq<byte>)
  {
    seq(n, k requires 0 <= k < n => if k < |c| then c[k] else 0)
  }

  /** The first byte that a truncation from size to newSize discards. */
  function Cutoff(size: nat, newSize: nat): (c: nat)
  {
    if newSize < size then newSize else MAX_BYTES
  }

  function ResizedInode(n: Inode, newSize: nat, now: u64): (n': Inode)
    requires newSize <= MAX_FILE_SIZE
  {
    n.(size := newSize, mtime := now)
  }

  /** The map is restricted to the blocks below BlocksFor(c), bytes from c on are zeros, the size is newSize. */
  ghost predicate CutTo(v0: Vol, own0: Owners, v: Vol, own: Owners, ino: nat, newSize: nat, c: nat)
  {
    && Shape(v0) && FileChanged(v0, v, own, ino)
    && v.inodes[ino].size == newSize
    && (forall s :: ValidSlot(s) && s.ino != ino ==> Ref(v, s) == Ref(v0, s))
    && (forall lb :: 0 <= lb < MAX_FILE_BLOCKS ==>
          Phys(v, ino, lb) == if lb < BlocksFor(c) then Phys(v0, ino, lb) else INVALID)
    && (forall k :: 0 <= k < MAX_BYTES ==> ByteAt(v, ino, k) == if k < c then ByteAt(v0, ino, k) else 0)
    && Restricted(v0, own0, v, own, ino, BlocksFor(c))
  }

  /** What a successful truncation does, and which invariants it keeps. */
  ghost predicate TruncateEffect(v0: Vol, own0: Owners, v: Vol, own: Owners, ino: nat, newSize: nat)
  {
    && Shape(v0) && ino < MAX_INODES
    && CutTo(v0, own0, v, own, ino, newSize, Cutoff(v0.inodes[ino].size, newSize))
    && (NothingPast(v0) ==> NothingPast(v))
    && (ZeroTail(v0) ==> ZeroTail(v) && Contents(v, ino) == Resize(Contents(v0, ino), newSize))
  }

  lemma CutToMeaning(v0: Vol, own0: Owners, v: Vol, own: Owners, ino: nat, newSize: nat)
    requires Consistent(v0, own0) && Shape(v0) && IsFile(v0, ino) && newSize <= MAX_FILE_SIZE
    requires CutTo(v0, own0, v, own, ino, newSize, Cutoff(v0.inodes[ino].size, newSize))
    ensures TruncateEffect(v0, own0, v, own, ino, newSize)
  {
    hide Consistent, Mapping, Ref, ByteAt, Block, BitmapBlocks, Restricted, CutTo, NothingPast, ZeroTail, Contents,
         FileChanged;
    FileSize(v0, own0, ino);
    if NothingPast(v0) { CutToNothingPast(v0, own0, v, own, ino, newSize); }
    if ZeroTail(v0) { CutToZeroTail(v0, own0, v, own, ino, newSize); }
  }

  lemma CutToNothingPast(v0: Vol, own0: Owners, v: Vol, own: Owners, ino: nat, newSize: nat)
    requires |v0.inodes| == MAX_INODES && IsFile(v0, ino) && newSize <= MAX_FILE_SIZE && NothingPast(v0)
    requires CutTo(v0, own0, v, own, ino, newSize, Cutoff(v0.inodes[ino].size, newSize))
    ensures |v.inodes| == MAX_INODES && NothingPast(v)
  {
    hide Mapping, ByteAt, BitmapBlocks, Restricted, Ref;
    forall i, lb | IsFile(v, i) && 0 <= lb < MAX_FILE_BLOCKS && Phys(v, i, lb) != INVALID
      ensures lb < BlocksFor(v.inodes[i].size)
    {
      assert IsFile(v0, i) && Phys(v, i, lb) == Phys(v0, i, lb);
      assert lb < BlocksFor(v0.inodes[i].size);
      if i == ino && newSize >= v0.inodes[ino].size { BlocksForMonotone(v0.inodes[ino].size, newSize); }
    }
  }

  lemma CutToZeroTail(v0: Vol, own0: Owners, v: Vol, own: Owners, ino: nat, newSize: nat)
    requires |v0.inodes| == MAX_INODES && IsFile(v0, ino) && v0.inodes[ino].size <= MAX_FILE_SIZE
             && newSize <= MAX_FILE_SIZE
    requires ZeroTail(v0) && CutTo(v0, own0, v, own, ino, newSize, Cutoff(v0.inodes[ino].size, newSize))
    ensures |v.inodes| == MAX_INODES && ZeroTail(v) && Contents(v, ino) == Resize(Contents(v0, ino), newSize)
  {
    hide Mapping, ByteAt, BitmapBlocks, Restricted, Ref, FileChanged;
    assert FileChanged(v0, v, own, ino);
    FileChangedShape(v0, v, own, ino);
    forall i, k | IsFile(v, i) && v.inodes[i].size <= k < MAX_BYTES
      ensures ByteAt(v, i, k) == 0
    {
      if i != ino {
        OtherContents(v0, v, own, ino, i);
        assert IsFile(v0, i) && ByteAt(v, i, k) == ByteAt(v0, i, k);
      }
    }
  }

  lemma FileChangedShape(v: Vol, v': Vol, own': Owners, ino: nat)
    requires |v.inodes| == MAX_INODES && FileChanged(v, v', own', ino)
    ensures |v'.inodes| == MAX_INODES
    ensures forall i :: 0 <= i < MAX_INODES && i != ino ==> v'.inodes[i] == v.inodes[i]
  {
    hide Mapping, OtherBlocks;
  }

  /** Zeroing the tail, cutting the blocks and setting the size add up. */
  lemma CutToFrom(v0: Vol, own0: Owners, v1: Vol, v2: Vol, own: Owners, ino: nat, newSize: nat, c: nat, now: u64)
    requires Consistent(v0, own0) && Shape(v0) && IsFile(v0, ino) && newSize <= MAX_FILE_SIZE && c <= MAX_BYTES
    requires TailZeroed(v0, v1, own0, ino, c) && Cutting(v1, v2, own, ino, BlocksFor(c), MAX_FILE_BLOCKS, {})
    requires |v2.inodes| == MAX_INODES
    ensures var w := WithInode(v2, ino, ResizedInode(v2.inodes[ino], newSize, now));
            CutTo(v0, own0, w, own, ino, newSize, c) && Tracked(v0, w)
  {
    hide Consistent, Mapping, Ref, ByteAt, Block, BitmapBlocks, Restricted, FileChanged, Cutting, Tracked, TailZeroed;
    var w := WithInode(v2, ino, ResizedInode(v2.inodes[ino], newSize, now));
    FileSize(v0, own0, ino);
    TailShape(v0, v1, own0, ino, c);
    CuttingShape(v1, v2, own, ino, BlocksFor(c), MAX_FILE_BLOCKS, {});
    CutRestricts(v1, own0, v2, own, ino, BlocksFor(c));
    CutMapping(v1, v2, own, ino, BlocksFor(c), ResizedInode(v2.inodes[ino], newSize, now), w);
    TrackedTransitive(v0, v1, v2);
    TrackedTransitive(v0, v2, w);
    CutToRestricted(v0, own0, v1, v2, own, w, ino, c);
    CutToBlocks(v0, own0, v1, v2, own, w, ino, c);
    CutToFile(v0, own0, v1, v2, own, w, ino, c);
  }

  lemma TailShape(v0: Vol, v1: Vol, own: Owners, ino: nat, c: nat)
    requires TailZeroed(v0, v1, own, ino, c)
    ensures Shape(v0) && Shape(v1) && Mapping(v1, own) && Tracked(v0, v1) && ino < MAX_INODES && SameSpace(v0, v1)
    ensures v1.inodes == v0.inodes
  {
    hide Mapping, ByteAt, OtherBlocks, Ref;
  }

  lemma CutMapping(v1: Vol, v2: Vol, own: Owners, ino: nat, nb: nat, n: Inode, w: Vol)
    requires ino < MAX_INODES == |v2.inodes| && SamePointers(v2.inodes[ino], n)
             && n.blockCount == v2.inodes[ino].blockCount
    requires w == WithInode(v2, ino, n) && Shape(v2)
    requires Cutting(v1, v2, own, ino, nb, MAX_FILE_BLOCKS, {})
    ensures Shape(w) && Mapping(w, own) && Tracked(v2, w) && SameBlocks(v2, w)
    ensures forall s :: ValidSlot(s) ==> Ref(w, s) == Ref(v2, s)
  {
    hide Core, Counted, NoHollow, Ref, Block, BitmapBlocks;
    SameMapMapping(v2, own, w);
  }

  lemma CutToRestricted(v0: Vol, own0: Owners, v1: Vol, v2: Vol, own: Owners, w: Vol, ino: nat, c: nat)
    requires TailZeroed(v0, v1, own0, ino, c) && Restricted(v1, own0, v2, own, ino, BlocksFor(c)) && Shape(v0)
             && Shape(v1)
    requires w.bitmap == v2.bitmap && w.total == v2.total && w.dataStart == v2.dataStart
             && w.freeBlocks == v2.freeBlocks
    ensures Restricted(v0, own0, w, own, ino, BlocksFor(c))
  {
    hide Mapping, ByteAt, OtherBlocks, Ref, Tracked, BitmapBlocks;
    SameFreeSet(v0, v1);
    SameFreeSet(v2, w);
    forall l | ValidLoc(l)
      ensures Remains(v0, ino, l, BlocksFor(c)) <==> Remains(v1, ino, l, BlocksFor(c))
    {
      assert forall lb :: 0 <= lb < MAX_FILE_BLOCKS ==> Phys(v1, ino, lb) == Phys(v0, ino, lb);
    }
    hide Remains;
  }

  lemma CutToBlocks(v0: Vol, own0: Owners, v1: Vol, v2: Vol, own: Owners, w: Vol, ino: nat, c: nat)
    requires TailZeroed(v0, v1, own0, ino, c) && Shape(v0) && Shape(v1) && Shape(v2) && Shape(w) && ino < MAX_INODES
    requires Cutting(v1, v2, own, ino, BlocksFor(c), MAX_FILE_BLOCKS, {}) && SameBlocks(v2, w)
    requires forall s :: ValidSlot(s) ==> Ref(w, s) == Ref(v2, s)
    ensures forall s :: ValidSlot(s) && s.ino != ino ==> Ref(w, s) == Ref(v0, s)
    ensures forall lb :: 0 <= lb < MAX_FILE_BLOCKS ==>
              Phys(w, ino, lb) == if lb < BlocksFor(c) then Phys(v0, ino, lb) else INVALID
    ensures forall k :: 0 <= k < MAX_BYTES ==> ByteAt(w, ino, k) == if k < c then ByteAt(v0, ino, k) else 0
    ensures OtherBlocks(v0, w, ino)
  {
    hide Core, Mapping, Ref, Block, BitmapBlocks, Tracked, Counted, NoHollow;
    forall lb | 0 <= lb < MAX_FILE_BLOCKS
      ensures Phys(w, ino, lb) == Phys(v2, ino, lb) && Phys(v1, ino, lb) == Phys(v0, ino, lb)
    {
    }
    forall k | 0 <= k < MAX_BYTES
      ensures ByteAt(w, ino, k) == if k < c then ByteAt(v0, ino, k) else 0
    {
      CutByte(v1, v2, w, ino, c, k);
    }
  }

  lemma CutByte(v1: Vol, v2: Vol, w: Vol, ino: nat, c: nat, k: nat)
    requires |v1.inodes| == MAX_INODES == |v2.inodes| == |w.inodes| && ino < MAX_INODES && k < MAX_BYTES
             && c <= MAX_BYTES
    requires k / SECTOR_SIZE < MAX_FILE_BLOCKS && Block(w, ino, k / SECTOR_SIZE) == Block(v2, ino, k / SECTOR_SIZE)
    requires Block(v2, ino, k / SECTOR_SIZE) ==
             if BlocksFor(c) <= k / SECTOR_SIZE < MAX_FILE_BLOCKS then ZeroSector() else Block(v1, ino, k / SECTOR_SIZE)
    ensures ByteAt(w, ino, k) == if k < BlocksFor(c) * SECTOR_SIZE then ByteAt(v1, ino, k) else 0
    ensures c <= BlocksFor(c) * SECTOR_SIZE
  {
    hide Block;
  }

  lemma CutToFile(v0: Vol, own0: Owners, v1: Vol, v2: Vol, own: Owners, w: Vol, ino: nat, c: nat)
    requires TailZeroed(v0, v1, own0, ino, c) && Shape(v0) && Shape(v2) && ino != 0 && IsFile(v0, ino)
             && |w.inodes| == MAX_INODES
    requires Cutting(v1, v2, own, ino, BlocksFor(c), MAX_FILE_BLOCKS, {}) && Mapping(w, own) && OtherBlocks(v0, w, ino)
    requires w == WithInode(v2, ino, w.inodes[ino]) && w.inodes[ino].kind == v2.inodes[ino].kind
             && w.inodes[ino].size <= MAX_FILE_SIZE
    ensures FileChanged(v0, w, own, ino)
  {
    hide Core, Mapping, Ref, Block, BitmapBlocks, Tracked, Counted, NoHollow, OtherBlocks, ByteAt;
  }

  // -------------------------------------------------------------- the method

  /** The error that a truncation is refused with before it starts. */
  function TruncateRefused(v: Vol, ino: nat, newSize: nat): (st: Status)
    requires |v.inodes| == MAX_INODES
  {
    if ino >= MAX_INODES then EINVAL
    else if v.inodes[ino].kind != FILE then EISDIR
    else if newSize > MAX_FILE_SIZE then ENOSPC
    else OK
  }

  method TruncateStatus(vol: DenyVolume, ino: nat, newSize: nat) returns (st: Status)
    requires vol.Valid() && |vol.View().inodes| == MAX_INODES
    ensures vol.Valid() && vol.View() == old(vol.View()) && st == TruncateRefused(vol.View(), ino, newSize)
  {
    hide BitmapBlocks, DenyVolume.Mounted;
    if ino >= MAX_INODES {
      return EINVAL;
    }
    if vol.Node(ino).kind != FILE {
      return EISDIR;
    }
    if newSize > MAX_FILE_SIZE {
      return ENOSPC;
    }
    return OK;
  }

  lemma TruncateAllowed(v: Vol, own: Owners, ino: nat, newSize: nat)
    requires |v.inodes| == MAX_INODES && TruncateRefused(v, ino, newSize) == OK && Consistent(v, own)
    ensures IsFile(v, ino) && newSize <= MAX_FILE_SIZE && ino < MAX_INODES && v.inodes[ino].size <= MAX_FILE_SIZE
    ensures Cutoff(v.inodes[ino].size, newSize) <= MAX_BYTES
  {
    hide Consistent;
    FileSize(v, own, ino);
  }

  /** denyfs_vol_truncate. */
  method VolTruncate(vol: DenyVolume, ino: nat, newSize: nat, now: u64, ghost own: Owners)
    returns (st: Status, ghost own': Owners)
    requires vol.Valid() && Consistent(vol.View(), own) && Clean(vol.View())
    modifies vol.Footprint()
    ensures vol.Valid() && Clean(vol.View()) && vol.View().foreign == old(vol.View()).foreign
    ensures TruncateRefused(old(vol.View()), ino, newSize) != OK ==>
              st == TruncateRefused(old(vol.View()), ino, newSize) && vol.View() == old(vol.View()) && own' == own
    ensures st == OK ==> ino < MAX_INODES && Consistent(vol.View(), own')
    ensures st == OK && newSize == old(vol.View()).inodes[ino].size ==> vol.View() == old(vol.View()) && own' == own
    ensures st == OK && newSize != old(vol.View()).inodes[ino].size ==>
              TruncateEffect(old(vol.View()), own, vol.View(), own', ino, newSize) && OnDisk(vol.View(), vol.mac)
              && TimeIs(vol.View(), ino, now)
    ensures vol.Reliable() ==> st == TruncateRefused(old(vol.View()), ino, newSize)
  {
    hide *;
    ghost var v0 := vol.View();
    GeometryBounds(v0);
    ConsistentMapping(v0, own);
    own' := own;
    st := TruncateStatus(vol, ino, newSize);
    if st != OK {
      return;
    }
    TruncateAllowed(v0, own, ino, newSize);
    var size := vol.Node(ino).size;
    if newSize == size {
      return;
    }
    ghost var v1;
    st, v1, own' := CutBlocks(vol, ino, size, newSize, own);
    if st != OK {
      TrackedClean(v0, vol.View());
      TrackedForeign(v0, vol.View());
      return;
    }
    st := FinishTruncate(vol, ino, newSize, now, v0, own, v1, own');
  }

  /** The part of a truncation that touches blocks; nothing is done when the file does not shrink. */
  method CutBlocks(vol: DenyVolume, ino: nat, size: nat, newSize: nat, ghost own: Owners)
    returns (st: Status, ghost v1: Vol, ghost own': Owners)
    requires vol.Valid() && Mapping(vol.View(), own) && ino < MAX_INODES && newSize <= MAX_FILE_SIZE
    modifies vol.Footprint()
    ensures vol.Valid() && Tracked(old(vol.View()), vol.View())
    ensures st == OK ==> TailZeroed(old(vol.View()), v1, own, ino, Cutoff(size, newSize))
    ensures st == OK ==> Cutting(v1, vol.View(), own', ino, BlocksFor(Cutoff(size, newSize)), MAX_FILE_BLOCKS, {})
    ensures vol.Reliable() ==> st == OK
  {
    hide *;
    ghost var v0 := vol.View();
    MappingFacts(v0, own);
    CutoffIs(size, newSize);
    st, v1, own' := OK, v0, own;
    TrackedSelf(v0);
    if newSize < size {
      if newSize % SECTOR_SIZE != 0 {
        st := ZeroTailBlock(vol, ino, newSize, own);
        if st != OK {
          return;
        }
      } else {
        TailWhole(v0, own, ino, newSize);
      }
      v1 := vol.View();
      TailShape(v0, v1, own, ino, newSize);
      st, own' := TruncateFileBlocks(vol, ino, BlocksFor(newSize), own);
      TrackedTransitive(v0, v1, vol.View());
    } else {
      TailWhole(v0, own, ino, MAX_BYTES);
      CutNothing(v0, own, ino);
    }
  }

  lemma TrackedSelf(v: Vol)
    requires Shape(v)
    ensures Tracked(v, v)
  {
    hide BitmapBlocks;
  }

  lemma CutoffIs(size: nat, newSize: nat)
    requires newSize <= MAX_FILE_SIZE
    ensures Cutoff(size, newSize) == (if newSize < size then newSize else MAX_BYTES) <= MAX_BYTES
    ensures BlocksFor(MAX_BYTES) == MAX_FILE_BLOCKS && MAX_BYTES % SECTOR_SIZE == 0 && SECTOR_SIZE > 0
  {
  }

  lemma CutNothing(v: Vol, own: Owners, ino: nat)
    requires Mapping(v, own) && ino < MAX_INODES
    ensures Cutting(v, v, own, ino, MAX_FILE_BLOCKS, MAX_FILE_BLOCKS, {})
  {
    hide Core, Counted, NoHollow, Ref, Block, BitmapBlocks;
    MappingFacts(v, own);
  }

  /** The size and time of the inode, and the flush. */
  method FinishTruncate(vol: DenyVolume, ino: nat, newSize: nat, now: u64, ghost v0: Vol, ghost own0: Owners,
                        ghost v1: Vol, ghost own: Owners)
    returns (st: Status)
    requires vol.Valid() && Shape(v0) && Consistent(v0, own0) && Clean(v0) && IsFile(v0, ino)
             && newSize <= MAX_FILE_SIZE
    requires ino < MAX_INODES && Cutoff(v0.inodes[ino].size, newSize) <= MAX_BYTES
    requires TailZeroed(v0, v1, own0, ino, Cutoff(v0.inodes[ino].size, newSize))
    requires Cutting(v1, vol.View(), own, ino, BlocksFor(Cutoff(v0.inodes[ino].size, newSize)), MAX_FILE_BLOCKS, {})
    modifies vol.Footprint()
    ensures vol.Valid() && Consistent(vol.View(), own) && Clean(vol.View()) && vol.View().foreign == v0.foreign
    ensures TruncateEffect(v0, own0, vol.View(), own, ino, newSize) && TimeIs(vol.View(), ino, now)
    ensures st == OK ==> OnDisk(vol.View(), vol.mac)
    ensures vol.Reliable() ==> st == OK
  {
    hide *;
    ghost var v2 := vol.View();
    GeometryBounds(v0);
    CuttingShape(v1, v2, own, ino, BlocksFor(Cutoff(v0.inodes[ino].size, newSize)), MAX_FILE_BLOCKS, {});
    var inode := vol.Node(ino);
    vol.PutInode(ino, ResizedInode(inode, newSize, now));
    ghost var w := vol.View();
    CutToFrom(v0, own0, v1, v2, own, ino, newSize, Cutoff(v0.inodes[ino].size, newSize), now);
    TruncateFinish(v0, own0, w, own, ino, newSize);
    ResizedTime(v2, ino, inode, newSize, now);
    st := VolFlush(vol);
    TimeKept(w, ino, now, vol.View());
    TruncateEffectMeta(v0, own0, w, own, ino, newSize, vol.View());
    if st != OK {
      st := EIO;
    }
  }

  lemma ResizedTime(v: Vol, ino: nat, n: Inode, newSize: nat, now: u64)
    requires ino < |v.inodes| && newSize <= MAX_FILE_SIZE
    ensures TimeIs(WithInode(v, ino, ResizedInode(n, newSize, now)), ino, now)
  {
  }

  lemma TruncateFinish(v0: Vol, own0: Owners, w: Vol, own: Owners, ino: nat, newSize: nat)
    requires Consistent(v0, own0) && Shape(v0) && Clean(v0) && Tracked(v0, w) && IsFile(v0, ino)
             && newSize <= MAX_FILE_SIZE
    requires CutTo(v0, own0, w, own, ino, newSize, Cutoff(v0.inodes[ino].size, newSize))
    ensures TruncateEffect(v0, own0, w, own, ino, newSize) && Consistent(w, own) && Clean(w) && w.foreign == v0.foreign
  {
    hide Consistent, Mapping, TruncateEffect, Clean, Tracked, Restricted, BitmapBlocks, ByteAt, OtherBlocks;
    CutToMeaning(v0, own0, w, own, ino, newSize);
    FileChangedConsistent(v0, own0, w, own, ino);
    TrackedClean(v0, w);
    TrackedForeign(v0, w);
  }

  lemma TruncateEffectMeta(v0: Vol, own0: Owners, v: Vol, own: Owners, ino: nat, newSize: nat, w: Vol)
    requires Consistent(v, own) && TruncateEffect(v0, own0, v, own, ino, newSize) && MetaWritten(v, w)
    ensures TruncateEffect(v0, own0, w, own, ino, newSize) && Consistent(w, own) && w.foreign == v.foreign
  {
    hide Consistent, Mapping, OtherBlocks, ByteAt, BitmapBlocks, NothingPast, ZeroTail, Contents, Resize, MetaWritten,
         Table, DirOk,
         SameDirectory, FileChanged, Ref, Restricted;
    assert FileChanged(v0, v, own, ino);
    MetaWrittenShape(v, w);
    MetaWrittenFiles(v, own, w);
    MetaWrittenRefs(v, own, w);
    FileChangedMeta(v0, v, w, own, ino);
    RestrictedMeta(v0, own0, v, own, ino, BlocksFor(Cutoff(v0.inodes[ino].size, newSize)), w);
  }

  lemma RestrictedMeta(v0: Vol, own0: Owners, v: Vol, own: Owners, ino: nat, nb: nat, w: Vol)
    requires |v0.inodes| == MAX_INODES && ino < MAX_INODES && Restricted(v0, own0, v, own, ino, nb)
    requires w.bitmap == v.bitmap && w.total == v.total && w.dataStart == v.dataStart && w.freeBlocks == v.freeBlocks
    ensures Restricted(v0, own0, w, own, ino, nb)
  {
    hide Remains;
    SameFreeSet(v, w);
  }
}
