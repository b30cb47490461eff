/** denyfs_vol_read and denyfs_vol_write. */
module Access {
  import opened Base
  import opened Codec
  import opened FileMap
  import opened Ownership
  import opened Frames
  import opened Growth
  import opened Files
  import opened Bytes
  import opened FileSystem
  import opened FileOps
  import opened Persist
  import opened Volume
  import opened BlockMap
  import opened Flush

  // -------------------------------------------------------------- one block

  lemma ReservedKept(v: Vol, own: Owners, v': Vol, ino: nat)
    requires Mapping(v, own) && Reserved(v, v', {}) && ino < MAX_INODES
    ensures Kept(v, v', own, ino) && v'.freeBlocks == v.freeBlocks
  {
    hide Core, Counted, NoHollow, Tracked, Ref, SameBlocks, BitmapBlocks, FreeSet;
    ReservedCore(v, v', own, {});
    SameRefsCounted(v, v');
  }

  lemma GrownKept(v: Vol, v': Vol, own': Owners, ino: nat, lb: nat)
    requires Grown(v, v', own', ino, lb)
    ensures Kept(v, v', own', ino)
  {
    hide Mapping, Missing, Ref, Tracked, SameFiles, SameBlocks;
  }

  lemma UnchangedKept(v: Vol, own: Owners, ino: nat)
    requires Mapping(v, own) && ino < MAX_INODES
    ensures Kept(v, v, own, ino)
  {
    hide Core, Counted, NoHollow, Block;
    MappingFacts(v, own);
  }

  lemma PhysInUse(v: Vol, own: Owners, ino: nat, lb: nat)
    requires Mapping(v, own) && Shape(v) && ino < MAX_INODES && lb < MAX_FILE_BLOCKS
    ensures Phys(v, ino, lb) != INVALID ==>
              Phys(v, ino, lb) < v.total && Load(v.disk, Phys(v, ino, lb)) == Block(v, ino, lb)
    ensures |Missing(v, ino, lb)| == 0 <==> Phys(v, ino, lb) != INVALID
  {
    hide Core, Counted, NoHollow, Get;
    OwnsItsTable(v, own, {}, Slot(ino, Data(lb)));
    MappedMissing(v, own, ino, lb);
  }

  /** The read-modify-write of one mapped block. */
  method ModifyBlock(vol: DenyVolume, ino: nat, lb: nat, block: u32, off: nat, chunk: seq<byte>, ghost own: Owners)
    returns (st: Status)
    requires vol.Valid() && Mapping(vol.View(), own) && ino < MAX_INODES && lb < MAX_FILE_BLOCKS
    requires block == Phys(vol.View(), ino, lb) && block != INVALID && off + |chunk| <= SECTOR_SIZE
    modifies vol.Footprint()
    ensures vol.Valid()
    ensures st == OK ==>
              vol.View() == PutBlock(old(vol.View()), block, Splice(Block(old(vol.View()), ino, lb), off, chunk))
    ensures st != OK ==> vol.View() == old(vol.View())
    ensures vol.Reliable() ==> st == OK
  {
    hide *;
    PhysInUse(vol.View(), own, ino, lb);
    var ok, data := vol.ReadBlock(block);
    if !ok {
      return EIO;
    }
    st := vol.WriteBlock(block, Splice(data, off, chunk));
  }

  /** One turn of the write loop: maps the block if it is a hole, then copies a chunk into it. */
  method StoreChunk(vol: DenyVolume, ino: nat, lb: nat, off: nat, chunk: seq<byte>, ghost own: Owners)
    returns (st: Status, ghost own': Owners)
    requires vol.Valid() && Mapping(vol.View(), own) && ino < MAX_INODES && lb < MAX_FILE_BLOCKS
    requires off + |chunk| <= SECTOR_SIZE
    modifies vol.Footprint()
    ensures vol.Valid()
    ensures st == OK ==>
              Stored(old(vol.View()), vol.View(), own', ino, lb, Splice(Block(old(vol.View()), ino, lb), off, chunk))
    ensures st != OK ==> Kept(old(vol.View()), vol.View(), own', ino)
    ensures vol.Reliable() && st == ENOSPC ==> old(vol.View()).freeBlocks < |Missing(old(vol.View()), ino, lb)|
    ensures vol.Reliable() && st == ENOSPC ==> Reserved(old(vol.View()), vol.View(), {}) && own' == own
    ensures vol.Reliable() ==> st == OK || st == ENOSPC
  {
    hide *;
    ghost var v := vol.View();
    own' := own;
    MappingFacts(v, own);
    UnchangedKept(v, own, ino);
    var block;
    st, block := GetFileDataBlock(vol, ino, lb, own);
    if st != OK {
      return;
    }
    if block != INVALID {
      DataWrite(v, own, ino, lb, Splice(Block(v, ino, lb), off, chunk));
      st := ModifyBlock(vol, ino, lb, block, off, chunk, own);
      return;
    }
    st, own' := FillAndModify(vol, ino, lb, off, chunk, own);
  }

  /** A hole is mapped and then written. */
  method FillAndModify(vol: DenyVolume, ino: nat, lb: nat, off: nat, chunk: seq<byte>, ghost own: Owners)
    returns (st: Status, ghost own': Owners)
    requires vol.Valid() && Mapping(vol.View(), own) && ino < MAX_INODES && lb < MAX_FILE_BLOCKS
    requires off + |chunk| <= SECTOR_SIZE && Phys(vol.View(), ino, lb) == INVALID
    modifies vol.Footprint()
    ensures vol.Valid()
    ensures st == OK ==>
              Stored(old(vol.View()), vol.View(), own', ino, lb, Splice(Block(old(vol.View()), ino, lb), off, chunk))
    ensures st != OK ==> Kept(old(vol.View()), vol.View(), own', ino)
    ensures vol.Reliable() && st == ENOSPC ==> old(vol.View()).freeBlocks < |Missing(old(vol.View()), ino, lb)|
    ensures vol.Reliable() && st == ENOSPC ==> Reserved(old(vol.View()), vol.View(), {}) && own' == own
    ensures vol.Reliable() ==> st == OK || st == ENOSPC
  {
    hide *;
    ghost var v := vol.View();
    GeometryBounds(v);
    var block;
    st, block, own' := AllocateFileDataBlock(vol, ino, lb, own);
    if st != OK {
      ReservedKept(v, own, vol.View(), ino);
      return;
    }
    ghost var w := vol.View();
    GrownKept(v, w, own', ino, lb);
    GrownBlock(v, w, own', ino, lb);
    GrowThenWrite(v, w, own', ino, lb, Splice(Block(v, ino, lb), off, chunk));
    st := ModifyBlock(vol, ino, lb, block, off, chunk, own');
  }

  lemma GrownBlock(v: Vol, v': Vol, own': Owners, ino: nat, lb: nat)
    requires Grown(v, v', own', ino, lb) && Phys(v, ino, lb) == INVALID
    ensures Shape(v') && Mapping(v', own') && Phys(v', ino, lb) != INVALID && Block(v', ino, lb) == Block(v, ino, lb)
  {
    hide Mapping, Get, BitmapBlocks, Block;
    GrownFilled(v, v', own', ino, lb);
    assert Data(lb) in Missing(v, ino, lb);
  }

  // ------------------------------------------------------------------ write

  /** The error that a write is refused with before it starts. */
  function WriteRefused(v: Vol, ino: nat, len: nat, offset: nat): (st: Status)
    requires |v.inodes| == MAX_INODES
  {
    if ino >= MAX_INODES || len > INT_MAX then EINVAL
    else if v.inodes[ino].kind != FILE then EISDIR
    else if offset > MAX_FILE_SIZE || len > MAX_FILE_SIZE - offset then ENOSPC
    else OK
  }

  lemma TurnStart(v0: Vol, v: Vol, own: Owners, ino: nat, src: seq<byte>, offset: nat, written: nat)
    requires Written(v0, v, own, ino, src, offset, written) && written < |src| && offset + |src| <= MAX_FILE_SIZE
    ensures Mapping(v, own) && |v.inodes| == MAX_INODES && Shape(v)
            && (offset + written) / SECTOR_SIZE < MAX_FILE_BLOCKS
    ensures SECTOR_SIZE != 0
    ensures var n := ChunkSize(offset + written, |src| - written);
            0 < n && written + n <= |src| && (offset + written) % SECTOR_SIZE + n <= SECTOR_SIZE
  {
    hide Written, Mapping, BitmapBlocks;
    WrittenShape(v0, v, own, ino, src, offset, written);
    ChunkPosition(offset, written, |src|);
  }

  lemma TurnFails(v0: Vol, v: Vol, own: Owners, v': Vol, own': Owners, ino: nat, src: seq<byte>, offset: nat,
                  written: nat)
    requires Written(v0, v, own, ino, src, offset, written) && written < |src| && offset + |src| <= MAX_FILE_SIZE
    requires Kept(v, v', own', ino)
    ensures Partial(v0, v', own', ino, src, offset, written)
    ensures |v.inodes| == MAX_INODES && (offset + written) / SECTOR_SIZE < MAX_FILE_BLOCKS && |v0.inodes| == MAX_INODES
            && ino < MAX_INODES
    ensures v.freeBlocks < |Missing(v, ino, (offset + written) / SECTOR_SIZE)| ==>
              v0.freeBlocks < |SpaceNeeded(v0, ino, offset, |src|)|
  {
    hide Written, Mapping, Kept, Partial, Missing, SpaceNeeded, BitmapBlocks;
    TurnStart(v0, v, own, ino, src, offset, written);
    WrittenShape(v0, v, own, ino, src, offset, written);
    PartialKept(v0, v, own, v', own', ino, src, offset, written);
    if v.freeBlocks < |Missing(v, ino, (offset + written) / SECTOR_SIZE)| {
      WrittenShort(v0, v, own, ino, src, offset, written);
    }
  }

  /** The turn that runs out of space leaves what the turns before it did. */
  lemma TurnShort(v0: Vol, v: Vol, own: Owners, v': Vol, ino: nat, src: seq<byte>, offset: nat, written: nat)
    requires Written(v0, v, own, ino, src, offset, written) && written < |src| && Reserved(v, v', {})
    requires |v.inodes| == MAX_INODES && ino < MAX_INODES && (offset + written) / SECTOR_SIZE < MAX_FILE_BLOCKS
    requires v.freeBlocks < |Missing(v, ino, (offset + written) / SECTOR_SIZE)|
    ensures OutOfRoom(v0, v', own, ino, src, offset, written)
  {
    hide Written, Missing, Reserved;
    WrittenReserved(v0, v, own, v', ino, src, offset, written);
    WrittenShape(v0, v', own, ino, src, offset, written);
  }

  /** Copies src into the file's blocks, from offset on. */
  method WriteBytes(vol: DenyVolume, ino: nat, src: seq<byte>, offset: nat, ghost own: Owners)
    returns (st: Status, ghost own': Owners, ghost done: nat)
    requires vol.Valid() && Mapping(vol.View(), own) && ino < MAX_INODES && offset + |src| <= MAX_FILE_SIZE
    modifies vol.Footprint()
    ensures vol.Valid()
    ensures st == OK ==> Written(old(vol.View()), vol.View(), own', ino, src, offset, |src|)
    ensures st != OK ==> Partial(old(vol.View()), vol.View(), own', ino, src, offset, done)
    ensures vol.Reliable() && st == ENOSPC ==>
              old(vol.View()).freeBlocks < |SpaceNeeded(old(vol.View()), ino, offset, |src|)|
    ensures vol.Reliable() && st == ENOSPC ==> OutOfRoom(old(vol.View()), vol.View(), own', ino, src, offset, done)
    ensures vol.Reliable() ==> st == OK || st == ENOSPC
  {
    hide *;
    ghost var v0 := vol.View();
    GeometryBounds(v0);
    own', done := own, 0;
    WrittenNone(v0, own, ino, src, offset);
    var written := 0;
    while written < |src|
      invariant written <= |src|
      invariant vol.Valid() && Written(v0, vol.View(), own', ino, src, offset, written)
    {
      ghost var v := vol.View();
      TurnStart(v0, v, own', ino, src, offset, written);
      var pos := offset + written;
      var n := ChunkSize(pos, |src| - written);
      ghost var own1 := own';
      st, own' := StoreChunk(vol, ino, pos / SECTOR_SIZE, pos % SECTOR_SIZE, src[written..written + n], own1);
      if st != OK {
        done := written;
        TurnFails(v0, v, own1, vol.View(), own', ino, src, offset, written);
        if vol.Reliable() { TurnShort(v0, v, own1, vol.View(), ino, src, offset, written); }
        return;
      }
      WrittenStep(v0, v, own1, vol.View(), own', ino, src, offset, written, n);
      written := written + n;
    }
    st := OK;
  }

  /** Mapped blocks stay where they are, and afterwards no block of the range is a hole. */
  ghost predicate RangeMapped(v0: Vol, v: Vol, ino: nat, offset: nat, len: nat)
  {
    && |v0.inodes| == MAX_INODES == |v.inodes| && ino < MAX_INODES
    && (forall lb :: 0 <= lb < MAX_FILE_BLOCKS && Phys(v0, ino, lb) != INVALID ==>
          Phys(v, ino, lb) == Phys(v0, ino, lb))
    && (forall lb :: offset / SECTOR_SIZE <= lb < MAX_FILE_BLOCKS && lb * SECTOR_SIZE < offset + len && len > 0 ==>
          Phys(v, ino, lb) != INVALID)
  }

  lemma WrittenRange(v0: Vol, v: Vol, own: Owners, ino: nat, src: seq<byte>, offset: nat, w: Vol)
    requires Shape(v0) && Shape(v) && Shape(w) && Written(v0, v, own, ino, src, offset, |src|)
    requires forall s :: ValidSlot(s) ==> Ref(w, s) == Ref(v, s)
    ensures RangeMapped(v0, w, ino, offset, |src|)
  {
    hide Mapping, Block, Ref, BitmapBlocks, Tracked, ByteAt, MissingRange, OtherBlocks, SameFiles;
    forall lb | offset / SECTOR_SIZE <= lb < MAX_FILE_BLOCKS && lb * SECTOR_SIZE < offset + |src| && |src| > 0
      ensures Phys(w, ino, lb) != INVALID
    {
      assert Data(lb) in Need(lb) && Data(lb) !in Missing(v, ino, lb);
    }
  }

  lemma RangeMappedMeta(v0: Vol, v: Vol, own: Owners, ino: nat, offset: nat, len: nat, w: Vol)
    requires Consistent(v, own) && RangeMapped(v0, v, ino, offset, len) && MetaWritten(v, w)
    ensures RangeMapped(v0, w, ino, offset, len)
  {
    hide Consistent, MetaWritten, Ref;
    MetaWrittenRefs(v, own, w);
    assert forall lb :: 0 <= lb < MAX_FILE_BLOCKS ==> Phys(w, ino, lb) == Phys(v, ino, lb);
  }

  /** A write that returned success: its effect on contents, space and the other files. */
  ghost predicate WriteEffect(v0: Vol, v: Vol, own: Owners, ino: nat, src: seq<byte>, offset: nat)
  {
    && Shape(v0) && offset + |src| <= MAX_FILE_SIZE
    && FileChanged(v0, v, own, ino)
    && v.inodes[ino].size == Max(v0.inodes[ino].size, offset + |src|)
    && v.freeBlocks == v0.freeBlocks - |SpaceNeeded(v0, ino, offset, |src|)|
    && RangeMapped(v0, v, ino, offset, |src|)
    && (NothingPast(v0) ==> NothingPast(v))
    && (ZeroTail(v0) ==> ZeroTail(v) && Contents(v, ino) == Overwrite(Contents(v0, ino), offset, src))
  }

  /** A write that stopped early: a prefix of src is in place, and only this file is affected. */
  ghost predicate Torn(v0: Vol, v: Vol, own: Owners, ino: nat, src: seq<byte>, offset: nat, done: nat)
  {
    && Shape(v0) && FileChanged(v0, v, own, ino) && done <= |src|
    && (forall k :: 0 <= k < MAX_BYTES ==>
          ByteAt(v, ino, k) == if offset <= k < offset + done then src[k - offset] else ByteAt(v0, ino, k))
  }

  lemma PartialTorn(v0: Vol, own0: Owners, v: Vol, own: Owners, ino: nat, src: seq<byte>, offset: nat, done: nat)
    requires Consistent(v0, own0) && Shape(v0) && IsFile(v0, ino) && Partial(v0, v, own, ino, src, offset, done)
    requires Clean(v0)
    ensures Torn(v0, v, own, ino, src, offset, done) && Consistent(v, own) && Clean(v) && v.foreign == v0.foreign
  {
    hide Consistent, Mapping, OtherBlocks, ByteAt, Clean, BitmapBlocks;
    FileSize(v0, own0, ino);
    PartialShape(v0, v, own, ino, src, offset, done);
    FileChangedConsistent(v0, own0, v, own, ino);
    TrackedClean(v0, v);
  }

  lemma PartialShape(v0: Vol, v: Vol, own: Owners, ino: nat, src: seq<byte>, offset: nat, done: nat)
    requires Partial(v0, v, own, ino, src, offset, done)
    ensures |v0.inodes| == MAX_INODES == |v.inodes| && Shape(v0) && Shape(v) && v.foreign == v0.foreign
  {
    hide BitmapBlocks, OtherBlocks, ByteAt, Mapping;
  }

  /** The write has all bytes in place; what remains is the inode and the flush. */
  lemma WriteFinish(v0: Vol, own0: Owners, v: Vol, own: Owners, ino: nat, src: seq<byte>, offset: nat, now: u64, w: Vol)
    requires Consistent(v0, own0) && Shape(v0) && Shape(v) && IsFile(v0, ino) && Clean(v0)
    requires Written(v0, v, own, ino, src, offset, |src|) && offset + |src| <= MAX_FILE_SIZE
    requires w == WithInode(v, ino, WrittenInode(v.inodes[ino], offset, |src|, now))
    ensures WriteEffect(v0, w, own, ino, src, offset) && Torn(v0, w, own, ino, src, offset, |src|)
    ensures Consistent(w, own) && Clean(w) && w.foreign == v0.foreign
  {
    hide Consistent, Mapping, Block, OtherBlocks, ByteAt, Clean, BitmapBlocks, Ref, Tracked, MissingRange, Extended,
         Missing,
         NothingPast, ZeroTail, Contents, Overwrite, FileChanged, SpaceNeeded, RangeMapped;
    FileSize(v0, own0, ino);
    WriteDone(v0, own0, v, own, ino, src, offset, now);
    WrittenMap(v0, v, own, ino, src, offset, now);
    WrittenRange(v0, v, own, ino, src, offset, w);
    WrittenCost(v0, v, own, ino, src, offset);
    TrackedClean(v0, w);
    TrackedForeign(v0, w);
  }

  lemma TrackedForeign(v: Vol, v': Vol)
    requires Tracked(v, v')
    ensures v'.foreign == v.foreign && Shape(v) && Shape(v')
  {
  }

  /** A write's effect is not disturbed by writing metadata out. */
  lemma WriteEffectMeta(v0: Vol, v: Vol, own: Owners, ino: nat, src: seq<byte>, offset: nat, w: Vol)
    requires Shape(v) && Consistent(v, own) && WriteEffect(v0, v, own, ino, src, offset) && MetaWritten(v, w)
    requires Torn(v0, v, own, ino, src, offset, |src|)
    ensures WriteEffect(v0, w, own, ino, src, offset) && Torn(v0, w, own, ino, src, offset, |src|) && Consistent(w, own)
    ensures w.foreign == v.foreign
  {
    hide Consistent, Mapping, OtherBlocks, ByteAt, BitmapBlocks, NothingPast, ZeroTail, Contents, Overwrite,
         SpaceNeeded,
         MetaWritten, Table, DirOk, SameDirectory, RangeMapped;
    MetaWrittenShape(v, w);
    MetaWrittenFiles(v, own, w);
    FileChangedMeta(v0, v, w, own, ino);
    RangeMappedMeta(v0, v, own, ino, offset, |src|, w);
  }

  /**
   * How a write that is not refused ends on a host that does not fail: out of space exactly if its
   * price exceeds the free blocks, and then it stops at the first block that cannot be had.
   */
  ghost predicate WriteOutcome(v0: Vol, v: Vol, own: Owners, ino: nat, src: seq<byte>, offset: nat, done: nat,
                               st: Status)
  {
    && |v0.inodes| == MAX_INODES && ino < MAX_INODES && offset + |src| <= MAX_FILE_SIZE
    && (st == OK || st == ENOSPC)
    && (st == ENOSPC <==> v0.freeBlocks < |SpaceNeeded(v0, ino, offset, |src|)|)
    && (st == ENOSPC ==> OutOfRoom(v0, v, own, ino, src, offset, done))
  }

  lemma WriteOutcomeIntro(v0: Vol, v: Vol, own: Owners, ino: nat, src: seq<byte>, offset: nat, done: nat, st: Status)
    requires |v0.inodes| == MAX_INODES && ino < MAX_INODES && offset + |src| <= MAX_FILE_SIZE
             && (st == OK || st == ENOSPC)
    requires st == ENOSPC <==> v0.freeBlocks < |SpaceNeeded(v0, ino, offset, |src|)|
    requires st == ENOSPC ==> OutOfRoom(v0, v, own, ino, src, offset, done)
    ensures WriteOutcome(v0, v, own, ino, src, offset, done, st)
  {
    hide OutOfRoom, SpaceNeeded;
  }

  /** denyfs_vol_write. */
  method VolWrite(vol: DenyVolume, ino: nat, src: seq<byte>, offset: nat, now: u64, ghost own: Owners)
    returns (st: Status, n: nat, ghost own': Owners, ghost done: nat)
    requires vol.Valid() && Consistent(vol.View(), own) && Clean(vol.View())
    modifies vol.Footprint()
    ensures vol.Valid() && Consistent(vol.View(), own') && Clean(vol.View())
    ensures vol.View().foreign == old(vol.View()).foreign
    ensures WriteRefused(old(vol.View()), ino, |src|, offset) != OK ==>
              st == WriteRefused(old(vol.View()), ino, |src|, offset) && vol.View() == old(vol.View()) && own' == own
    ensures st == OK ==>
              n == |src| && WriteEffect(old(vol.View()), vol.View(), own', ino, src, offset)
                  && OnDisk(vol.View(), vol.mac)
    ensures st == OK ==> TimeIs(vol.View(), ino, now)
    ensures WriteRefused(old(vol.View()), ino, |src|, offset) == OK ==>
              Torn(old(vol.View()), vol.View(), own', ino, src, offset, done)
    ensures vol.Reliable() && WriteRefused(old(vol.View()), ino, |src|, offset) == OK ==>
              WriteOutcome(old(vol.View()), vol.View(), own', ino, src, offset, done, st)
  {
    hide *;
    ghost var v0 := vol.View();
    GeometryBounds(v0);
    ConsistentMapping(v0, own);
    own', done, n := own, 0, 0;
    st := WriteStatus(vol, ino, |src|, offset);
    if st != OK {
      return;
    }
    NotRefused(v0, own, ino, |src|, offset);
    st, own', done := WriteBytes(vol, ino, src, offset, own);
    if st != OK {
      PartialTorn(v0, own, vol.View(), own', ino, src, offset, done);
      if vol.Reliable() { WriteOutcomeIntro(v0, vol.View(), own', ino, src, offset, done, st); }
      return;
    }
    st := FinishWrite(vol, ino, src, offset, now, v0, own, own');
    n, done := |src|, |src|;
    if vol.Reliable() { WriteOutcomeIntro(v0, vol.View(), own', ino, src, offset, done, st); }
  }

  lemma ConsistentMapping(v: Vol, own: Owners)
    requires Consistent(v, own)
    ensures Mapping(v, own) && Core(v, own, {}) && Shape(v)
  {
  }

  lemma NotRefused(v: Vol, own: Owners, ino: nat, len: nat, offset: nat)
    requires |v.inodes| == MAX_INODES && WriteRefused(v, ino, len, offset) == OK && Consistent(v, own)
    ensures IsFile(v, ino) && offset + len <= MAX_FILE_SIZE && ino < MAX_INODES
  {
    hide Consistent;
  }

  method WriteStatus(vol: DenyVolume, ino: nat, len: nat, offset: nat) returns (st: Status)
    requires vol.Valid() && |vol.View().inodes| == MAX_INODES
    ensures vol.Valid() && vol.View() == old(vol.View()) && st == WriteRefused(vol.View(), ino, len, offset)
  {
    hide BitmapBlocks, DenyVolume.Mounted;
    if ino >= MAX_INODES || len > INT_MAX {
      return EINVAL;
    }
    if vol.Node(ino).kind != FILE {
      return EISDIR;
    }
    if offset > MAX_FILE_SIZE || len > MAX_FILE_SIZE - offset {
      return ENOSPC;
    }
    return OK;
  }

  /** The size and time of the inode, and the flush. */
  method FinishWrite(vol: DenyVolume, ino: nat, src: seq<byte>, offset: nat, now: u64,
                     ghost v0: Vol, ghost own0: Owners, ghost own: Owners)
    returns (st: Status)
    requires vol.Valid() && Shape(v0) && Consistent(v0, own0) && Clean(v0) && IsFile(v0, ino) && ino < MAX_INODES
    requires Written(v0, vol.View(), own, ino, src, offset, |src|) && offset + |src| <= MAX_FILE_SIZE
    modifies vol.Footprint()
    ensures vol.Valid() && Consistent(vol.View(), own) && Clean(vol.View()) && vol.View().foreign == v0.foreign
    ensures WriteEffect(v0, vol.View(), own, ino, src, offset) && Torn(v0, vol.View(), own, ino, src, offset, |src|)
    ensures v0.freeBlocks >= |SpaceNeeded(v0, ino, offset, |src|)| && TimeIs(vol.View(), ino, now)
    ensures st == OK ==> OnDisk(vol.View(), vol.mac)
    ensures st == OK || st == EIO
    ensures vol.Reliable() ==> st == OK
  {
    hide *;
    ghost var v := vol.View();
    var inode := vol.Node(ino);
    vol.PutInode(ino, WrittenInode(inode, offset, |src|, now));
    ghost var w := vol.View();
    WriteFinish(v0, own0, v, own, ino, src, offset, now, w);
    Affordable(v0, w, own, ino, src, offset);
    GeometryBounds(v);
    TimeSet(v, ino, inode, offset, |src|, now);
    st := VolFlush(vol);
    TimeKept(w, ino, now, vol.View());
    WriteEffectMeta(v0, w, own, ino, src, offset, vol.View());
    if st != OK {
      st := EIO;
    }
  }

  /** The inode has this modification time. */
  predicate TimeIs(v: Vol, ino: nat, now: u64)
  {
    ino < |v.inodes| && v.inodes[ino].mtime == now
  }

  lemma TimeSet(v: Vol, ino: nat, n: Inode, offset: nat, len: nat, now: u64)
    requires ino < |v.inodes| && offset + len <= MAX_FILE_SIZE
    ensures TimeIs(WithInode(v, ino, WrittenInode(n, offset, len, now)), ino, now)
  {
  }

  lemma TimeKept(v: Vol, ino: nat, now: u64, w: Vol)
    requires TimeIs(v, ino, now) && MetaWritten(v, w)
    ensures TimeIs(w, ino, now)
  {
    hide MetaWritten;
    MetaWrittenShape(v, w);
  }

  lemma Affordable(v0: Vol, v: Vol, own: Owners, ino: nat, src: seq<byte>, offset: nat)
    requires WriteEffect(v0, v, own, ino, src, offset)
    ensures |v0.inodes| == MAX_INODES && ino < MAX_INODES && offset + |src| <= MAX_FILE_SIZE
    ensures v0.freeBlocks >= |SpaceNeeded(v0, ino, offset, |src|)|
  {
  }

  // ------------------------------------------------------------------- read

  /** The part of c from offset on, at most len bytes of it. */
  function Slice(c: seq<byte>, offset: nat, len: nat): (s: seq<byte>)
    ensures |s| <= len
  {
    if offset >= |c| then [] else c[offset..Min(offset + len, |c|)]
  }

  function ReadRefused(v: Vol, ino: nat, len: nat): (st: Status)
    requires |v.inodes| == MAX_INODES
  {
    if ino >= MAX_INODES || len > INT_MAX then EINVAL
    else if v.inodes[ino].kind != FILE then EISDIR
    else OK
  }

  lemma ReadTurn(v: Vol, own: Owners, ino: nat, offset: nat, len: nat, read: nat)
    requires Consistent(v, own) && Shape(v) && IsFile(v, ino) && read < len && offset + len <= v.inodes[ino].size
    ensures var pos := offset + read;
            var n := ChunkSize(pos, len - read);
            && SECTOR_SIZE != 0 && pos / SECTOR_SIZE < MAX_FILE_BLOCKS && 0 < n && read + n <= len
            && pos % SECTOR_SIZE + n <= SECTOR_SIZE
            && offset + read + n <= |Contents(v, ino)|
            && Block(v, ino, pos / SECTOR_SIZE)[pos % SECTOR_SIZE..pos % SECTOR_SIZE + n] == Contents(v,
                ino)[pos..pos + n]
  {
    hide Consistent, Block, BitmapBlocks;
    FileSize(v, own, ino);
  }

  /** One turn of the read loop: a chunk of one block, zeros for a hole. */
  method ReadChunk(vol: DenyVolume, ino: nat, lb: nat, off: nat, n: nat, ghost own: Owners)
    returns (st: Status, chunk: seq<byte>)
    requires vol.Valid() && Mapping(vol.View(), own) && ino < MAX_INODES && lb < MAX_FILE_BLOCKS
             && off + n <= SECTOR_SIZE
    ensures vol.Valid() && vol.View() == old(vol.View())
    ensures st == OK ==> chunk == Block(vol.View(), ino, lb)[off..off + n]
    ensures !vol.faulty ==> st == OK
  {
    hide *;
    chunk := [];
    ghost var v := vol.View();
    MappingFacts(v, own);
    PhysInUse(v, own, ino, lb);
    var block;
    st, block := GetFileDataBlock(vol, ino, lb, own);
    if st != OK {
      return;
    }
    HoleIsZero(v, ino, lb);
    if block == INVALID {
      chunk := ZeroSector()[off..off + n];
      return;
    }
    var ok, data := vol.ReadBlock(block);
    if !ok {
      return EIO, chunk;
    }
    chunk := data[off..off + n];
  }

  lemma HoleIsZero(v: Vol, ino: nat, lb: nat)
    requires Shape(v) && ino < MAX_INODES && lb < MAX_FILE_BLOCKS
    ensures Phys(v, ino, lb) == INVALID ==> Block(v, ino, lb) == ZeroSector()
    ensures SECTOR_SIZE == 4096
  {
    hide Get;
  }

  /** denyfs_vol_read: exactly the bytes of the file from offset on, clamped to its size. */
  method VolRead(vol: DenyVolume, ino: nat, len: nat, offset: nat, ghost own: Owners)
    returns (st: Status, data: seq<byte>)
    requires vol.Valid() && Consistent(vol.View(), own)
    ensures vol.Valid() && vol.View() == old(vol.View())
    ensures ReadRefused(vol.View(), ino, len) != OK ==> st == ReadRefused(vol.View(), ino, len)
    ensures st == OK ==> ino < MAX_INODES && data == Slice(Contents(vol.View(), ino), offset, len)
    ensures !vol.faulty ==> st == ReadRefused(vol.View(), ino, len)
  {
    hide *;
    ghost var v := vol.View();
    ConsistentMapping(v, own);
    GeometryBounds(v);
    data := [];
    var size;
    st, size := ReadStatus(vol, ino, len);
    if st != OK {
      return;
    }
    ReadAllowed(v, own, ino, len);
    SliceBounds(Contents(v, ino), offset, len);
    if offset >= size {
      return;
    }
    var available := size - offset;
    st, data := ReadBytes(vol, ino, offset, if len > available then available else len, own);
  }

  lemma ReadStart(v: Vol, own: Owners, ino: nat, offset: nat, count: nat)
    requires Consistent(v, own) && Shape(v) && IsFile(v, ino) && offset + count <= v.inodes[ino].size
    ensures Mapping(v, own) && offset + count <= |Contents(v, ino)| && Contents(v, ino)[offset..offset] == []
  {
    hide Consistent, ByteAt, BitmapBlocks;
    ConsistentMapping(v, own);
    FileSize(v, own, ino);
  }

  /** The read loop, within the file's size. */
  method ReadBytes(vol: DenyVolume, ino: nat, offset: nat, count: nat, ghost own: Owners)
    returns (st: Status, data: seq<byte>)
    requires vol.Valid() && Consistent(vol.View(), own) && |vol.View().inodes| == MAX_INODES && IsFile(vol.View(), ino)
    requires ino < MAX_INODES && offset + count <= vol.View().inodes[ino].size
    ensures vol.Valid() && vol.View() == old(vol.View())
    ensures st == OK ==>
              offset + count <= |Contents(vol.View(), ino)| && data == Contents(vol.View(), ino)[offset..offset + count]
    ensures !vol.faulty ==> st == OK
  {
    hide Consistent, Mapping, Contents, Block, BitmapBlocks, IsFile, DenyVolume.View, DenyVolume.Valid, DenyVolume.Mounted;
    ghost var v := vol.View();
    ReadStart(v, own, ino, offset, count);
    ghost var c := Contents(v, ino);
    data := [];
    while |data| < count
      invariant vol.Valid() && vol.View() == v
      invariant |data| <= count && data == c[offset..offset + |data|]
      decreases count - |data|
    {
      ReadTurn(v, own, ino, offset, count, |data|);
      var pos := offset + |data|;
      var n := ChunkSize(pos, count - |data|);
      var chunk;
      st, chunk := ReadChunk(vol, ino, pos / SECTOR_SIZE, pos % SECTOR_SIZE, n, own);
      if st != OK {
        return;
      }
      AppendSlice(c, offset, pos, n);
      data := data + chunk;
    }
    st := OK;
  }

  lemma AppendSlice(c: seq<byte>, a: nat, b: nat, n: nat)
    requires a <= b && b + n <= |c|
    ensures c[a..b] + c[b..b + n] == c[a..b + n] && |c[a..b + n]| == b + n - a && |c[b..b + n]| == n
  {
  }

  lemma SliceBounds(c: seq<byte>, offset: nat, len: nat)
    ensures offset >= |c| ==> Slice(c, offset, len) == []
    ensures offset < |c| ==>
              Slice(c, offset, len) == c[offset..offset + (if len > |c| - offset then |c| - offset else len)]
    ensures offset <= |c| ==> c[offset..offset] == []
  {
  }

  lemma ReadAllowed(v: Vol, own: Owners, ino: nat, len: nat)
    requires |v.inodes| == MAX_INODES && ReadRefused(v, ino, len) == OK && Consistent(v, own)
    ensures ino < MAX_INODES && IsFile(v, ino) && |Contents(v, ino)| == v.inodes[ino].size
  {
    hide Consistent;
    FileSize(v, own, ino);
  }

  method ReadStatus(vol: DenyVolume, ino: nat, len: nat) returns (st: Status, size: nat)
    requires vol.Valid() && |vol.View().inodes| == MAX_INODES
    ensures vol.Valid() && vol.View() == old(vol.View()) && st == ReadRefused(vol.View(), ino, len)
    ensures st == OK ==> ino < |vol.View().inodes| && size == vol.View().inodes[ino].size
  {
    hide BitmapBlocks, DenyVolume.Mounted;
    if ino >= MAX_INODES || len > INT_MAX {
      return EINVAL, 0;
    }
    if vol.Node(ino).kind != FILE {
      return EISDIR, 0;
    }
    return OK, vol.Node(ino).size;
  }
}
