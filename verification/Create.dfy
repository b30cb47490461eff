/** add_dirent and denyfs_vol_create. */
module Create {
  import opened Base
  import opened Codec
  import opened FileMap
  import opened Ownership
  import opened Growth
  import opened Files
  import opened Bytes
  import opened FileSystem
  import opened FileOps
  import opened Persist
  import opened Volume
  import opened BlockMap
  import opened Flush
  import opened Access
  import opened Directory
  import opened Dirents

  // --------------------------------------------------------- a free slot

  /** Every slot of the directory's blocks is in use. */
  ghost predicate DirFull(v: Vol)
    requires |v.inodes| == MAX_INODES
  {
    forall k :: 0 <= k < DirSlots(v) && k < DIRENTS_PER_BLOCK * DIRECT_BLOCKS ==> Live(v, k)
  }

  ghost predicate LiveBefore(v: Vol, n: nat)
    requires |v.inodes| == MAX_INODES
  {
    forall k :: 0 <= k < DirSlots(v) && k < n && k < DIRENTS_PER_BLOCK * DIRECT_BLOCKS ==> Live(v, k)
  }

  /** The search for a free entry in one root block. */
  method FreeInBlock(vol: DenyVolume, bi: nat, data: Sector, ghost own: Owners)
    returns (found: bool, st: Status, i: nat)
    requires vol.Valid() && Readable(vol.View(), own) && |vol.View().inodes| == MAX_INODES
    requires bi < DIRECT_BLOCKS && bi < vol.View().inodes[0].blockCount && bi < MAX_FILE_BLOCKS
             && data == Block(vol.View(), 0, bi)
    requires LiveBefore(vol.View(), DIRENTS_PER_BLOCK * bi)
    ensures vol.Valid() && vol.View() == old(vol.View()) && st == OK
    ensures found ==> i < DIRENTS_PER_BLOCK && !Live(vol.View(), DIRENTS_PER_BLOCK * bi + i)
    ensures found ==> LiveBefore(vol.View(), DIRENTS_PER_BLOCK * bi + i)
    ensures !found ==> LiveBefore(vol.View(), DIRENTS_PER_BLOCK * (bi + 1))
  {
    hide *;
    found, st, i := false, OK, 0;
    ghost var v := vol.View();
    NextBlock(bi, DIRENTS_PER_BLOCK);
    while i < DIRENTS_PER_BLOCK
      invariant i <= DIRENTS_PER_BLOCK && vol.Valid() && vol.View() == v
      invariant LiveBefore(v, DIRENTS_PER_BLOCK * bi + i)
    {
      var e := DecodeDirent(data, i);
      EntriesValid(v, own, bi, i);
      if !ValidDirent(e) {
        return false, EIO, i;
      }
      if e.inode == INVALID {
        found := true;
        return;
      }
      LiveOneMore(v, DIRENTS_PER_BLOCK * bi + i);
      i := i + 1;
    }
  }

  lemma LiveOneMore(v: Vol, n: nat)
    requires |v.inodes| == MAX_INODES && LiveBefore(v, n) && Live(v, n)
    ensures LiveBefore(v, n + 1)
  {
    hide Live;
  }

  lemma LiveNone(v: Vol)
    requires |v.inodes| == MAX_INODES
    ensures LiveBefore(v, DIRENTS_PER_BLOCK * 0)
  {
  }

  lemma LiveAll(v: Vol, bi: nat)
    requires |v.inodes| == MAX_INODES && LiveBefore(v, DIRENTS_PER_BLOCK * bi)
             && (bi >= v.inodes[0].blockCount || bi >= DIRECT_BLOCKS)
    ensures DirFull(v)
  {
    hide Live;
  }

  lemma NotFull(v: Vol, bi: nat, i: nat)
    requires |v.inodes| == MAX_INODES && bi < DIRECT_BLOCKS && bi < v.inodes[0].blockCount && i < DIRENTS_PER_BLOCK
    requires !Live(v, DIRENTS_PER_BLOCK * bi + i)
    ensures !DirFull(v)
  {
    hide EntryAt;
    SlotIndex(bi, i);
  }

  /** The first free slot of the directory. */
  method FindFree(vol: DenyVolume, ghost own: Owners) returns (st: Status, bi: nat, i: nat, data: Sector)
    requires vol.Valid() && Readable(vol.View(), own)
    ensures vol.Valid() && vol.View() == old(vol.View()) && |vol.View().inodes| == MAX_INODES
    ensures st == OK ==>
              bi < DIRECT_BLOCKS && i < DIRENTS_PER_BLOCK && bi < vol.View().inodes[0].blockCount
                 && bi < MAX_FILE_BLOCKS
    ensures st == OK ==> data == Block(vol.View(), 0, bi) && !Live(vol.View(), DIRENTS_PER_BLOCK * bi + i)
    ensures st == OK ==> !DirFull(vol.View()) && LiveBefore(vol.View(), DIRENTS_PER_BLOCK * bi + i)
    ensures st == ENOENT ==> DirFull(vol.View())
    ensures st == OK || st == ENOENT || (st == EIO && vol.faulty)
  {
    hide *;
    ghost var v := vol.View();
    FewBlocks();
    RootBlock(v, own, 0);
    LiveNone(v);
    data := ZeroSector();
    bi, i := 0, 0;
    while bi < DIRECT_BLOCKS
      invariant bi <= DIRECT_BLOCKS && vol.Valid() && vol.View() == v && LiveBefore(v, DIRENTS_PER_BLOCK * bi)
    {
      var present;
      st, present, data := ReadRootBlock(vol, bi, own);
      if st != OK {
        return;
      }
      if !present {
        break;
      }
      var found;
      found, st, i := FreeInBlock(vol, bi, data, own);
      if found {
        NotFull(v, bi, i);
        return;
      }
      bi := bi + 1;
    }
    LiveAll(v, bi);
    st := ENOENT;
  }

  // ------------------------------------------------------------- add_dirent

  /** Overwriting a free entry of an existing block. */
  lemma PutEntry(v: Vol, own: Owners, bi: nat, i: nat, e: Dirent)
    requires Readable(v, own) && |v.inodes| == MAX_INODES && bi < DIRECT_BLOCKS && bi < v.inodes[0].blockCount
             && i < DIRENTS_PER_BLOCK
    requires bi < MAX_FILE_BLOCKS
    ensures DirentStored(v, PutBlock(v, v.inodes[0].direct[bi], PutDirent(Block(v, 0, bi), i, e)), own, bi, i, e)
    ensures v.inodes[0].direct[bi] < v.total
    ensures PutBlock(v, v.inodes[0].direct[bi], PutDirent(Block(v, 0, bi), i, e)).inodes == v.inodes
    ensures PutBlock(v, v.inodes[0].direct[bi], PutDirent(Block(v, 0, bi), i, e)).freeBlocks == v.freeBlocks
    ensures FreeSet(PutBlock(v, v.inodes[0].direct[bi], PutDirent(Block(v, 0, bi), i, e))) == FreeSet(v)
  {
    hide Core, Counted, NoHollow, Block, PutDirent, EntryAt, Stored, Get, BitmapBlocks, FreeSet;
    MappingFacts(v, own);
    RootBlock(v, own, bi);
    DataWrite(v, own, 0, bi, PutDirent(Block(v, 0, bi), i, e));
    SameFreeSet(v, PutBlock(v, v.inodes[0].direct[bi], PutDirent(Block(v, 0, bi), i, e)));
  }

  /** The root inode with one more block. */
  function RootWith(n: Inode, b: u32): (n': Inode)
  {
    if n.blockCount < DIRECT_BLOCKS then n.(direct := n.direct[n.blockCount := b],
        blockCount := n.blockCount + 1) else n
  }

  /** A free block, linked at the end of the root directory and then written. */
  lemma NewDirBlock(v: Vol, own: Owners, b: u32, e: Dirent) returns (own': Owners)
    requires Readable(v, own) && |v.inodes| == MAX_INODES && InData(v, b) && !Used(v, b)
             && v.inodes[0].blockCount < DIRECT_BLOCKS
    requires v.freeBlocks > 0
    ensures var v' := PutBlock(WithInode(SetBit(v, b), 0, RootWith(v.inodes[0], b)), b,
            PutDirent(EmptyDirBlock(), 0, e));
            DirentStored(v, v', own', v.inodes[0].blockCount, 0, e) && v'.freeBlocks == v.freeBlocks - 1
  {
    hide Core, Counted, NoHollow, Block, PutDirent, EmptyDirBlock, EntryAt, Stored, Get, BitmapBlocks, FreeSet, SetBit,
         Reserved, Supplied,
         Taken, Grown, InodeShape;
    var bi := v.inodes[0].blockCount;
    MappingFacts(v, own);
    RootBlock(v, own, bi);
    var u := PutBlock(SetBit(v, b), b, ZeroSector());
    TakeOne(v, b);
    TakenIntro(v, own, u, 0, bi, b);
    var v1;
    v1, own' := DirectSlot(v, own, u, 0, bi, b);
    SuppliedGrown(v, own, u, {b}, v1, own', 0, bi);
    var g := WithInode(v1, 0, v1.inodes[0].(blockCount := v1.inodes[0].blockCount + 1));
    GrownShape(v, g, own', 0, bi);
    GrowThenWrite(v, g, own', 0, bi, PutDirent(EmptyDirBlock(), 0, e));
    NewDirBlockState(v, b, u, v1, g, PutDirent(EmptyDirBlock(), 0, e));
  }

  lemma GrownShape(v: Vol, v': Vol, own': Owners, ino: nat, lb: nat)
    requires Grown(v, v', own', ino, lb)
    ensures Shape(v')
  {
    hide Mapping, Missing, Ref, SameFiles, SameBlocks, BitmapBlocks;
  }

  lemma TakeOne(v: Vol, b: u32)
    requires Shape(v) && v.freeBlocks == |FreeSet(v)| && InData(v, b) && !Used(v, b)
    ensures var u := PutBlock(SetBit(v, b), b, ZeroSector());
            Reserved(v, u, {b}) && Shape(u) && u.disk == PutBlock(v, b, ZeroSector()).disk && u.inodes == v.inodes
  {
    hide Reserved, FreeSet, BitmapBlocks, SetBit;
    ReserveNone(v);
    ReserveAlloc(v, v, {}, b);
    assert {} + {b as nat} == {b as nat};
    SetBitFields(v, b);
    SetBitInodes(v, b);
    ReserveWrite(v, SetBit(v, b), {b}, b, ZeroSector());
  }

  lemma SetBitInodes(v: Vol, b: nat)
    ensures SetBit(v, b).inodes == v.inodes && SetBit(v, b).disk == v.disk && SetBit(v, b).total == v.total
    ensures SetBit(v, b).dataStart == v.dataStart && SetBit(v, b).freeInodes == v.freeInodes
  {
  }

  lemma NewDirBlockState(v: Vol, b: u32, u: Vol, v1: Vol, g: Vol, data: Sector)
    requires |v.inodes| == MAX_INODES && v.inodes[0].blockCount < DIRECT_BLOCKS && Shape(v) && InData(v, b)
             && v.freeBlocks > 0
    requires u == PutBlock(SetBit(v, b), b, ZeroSector())
             && v1 == WithInode(u, 0, v.inodes[0].(direct := v.inodes[0].direct[v.inodes[0].blockCount := b]))
    requires g == WithInode(v1, 0, v.inodes[0].(direct := v.inodes[0].direct[v.inodes[0].blockCount := b],
                                                blockCount := v.inodes[0].blockCount + 1))
    ensures PutBlock(g, b, data) == PutBlock(WithInode(SetBit(v, b), 0, RootWith(v.inodes[0], b)), b, data)
    ensures PutBlock(g, b, data).freeBlocks == v.freeBlocks - 1
  {
    hide BitmapBlocks, SetBit;
    SetBitInodes(v, b);
    assert SetBit(v, b).freeBlocks == v.freeBlocks - 1 by { MarkIs(v, b, true, v.freeBlocks - 1); SetBitIs(v, b); }
  }

  lemma SetBitIs(v: Vol, b: nat)
    requires v.freeBlocks > 0
    ensures SetBit(v, b) == Mark(v, b, true, v.freeBlocks - 1)
  {
  }

  /** Slot i of block bi, the first not in use, became e; a block was added exactly if all slots were in use. */
  ghost predicate DirentAdded(v: Vol, v': Vol, own': Owners, bi: nat, i: nat, e: Dirent)
  {
    && DirentStored(v, v', own', bi, i, e)
    && !Live(v, DIRENTS_PER_BLOCK * bi + i) && LiveBefore(v, DIRENTS_PER_BLOCK * bi + i)
    && (DirFull(v) <==> bi == v.inodes[0].blockCount)
    && v'.freeBlocks == v.freeBlocks - (if DirFull(v) then 1 else 0)
  }

  /** No entry can be added: every slot is in use and no block can be added. */
  ghost predicate NoRoom(v: Vol)
    requires |v.inodes| == MAX_INODES
  {
    DirFull(v) && (v.inodes[0].blockCount >= DIRECT_BLOCKS || v.freeBlocks == 0)
  }

  lemma AddedToBlock(v: Vol, own: Owners, bi: nat, i: nat, e: Dirent)
    requires Readable(v, own) && |v.inodes| == MAX_INODES && bi < DIRECT_BLOCKS && bi < v.inodes[0].blockCount
             && i < DIRENTS_PER_BLOCK
    requires bi < MAX_FILE_BLOCKS && !Live(v, DIRENTS_PER_BLOCK * bi + i)
    requires LiveBefore(v, DIRENTS_PER_BLOCK * bi + i)
    ensures var v' := PutBlock(v, v.inodes[0].direct[bi], PutDirent(Block(v, 0, bi), i, e));
            DirentAdded(v, v', own, bi, i, e) && Tracked(v, v') && RootOnly(v, v')
    ensures v.inodes[0].direct[bi] < v.total && !NoRoom(v) && Tracked(v, v)
  {
    hide Readable, Block, PutDirent, Stored, Live, BitmapBlocks, DirFull, DirentStored, Tracked;
    PutEntry(v, own, bi, i, e);
    NotFull(v, bi, i);
    StoredTracked(v, PutBlock(v, v.inodes[0].direct[bi], PutDirent(Block(v, 0, bi), i, e)), own, bi, i, e);
  }

  lemma StoredTracked(v: Vol, v': Vol, own': Owners, bi: nat, i: nat, e: Dirent)
    requires DirentStored(v, v', own', bi, i, e)
    ensures Tracked(v, v') && Tracked(v, v) && Shape(v) && Shape(v')
  {
    hide Mapping, BitmapBlocks, Filled, Block, PutDirent, EmptyDirBlock;
  }

  lemma AddedInNewBlock(v: Vol, own: Owners, b: u32, e: Dirent) returns (own': Owners)
    requires Readable(v, own) && |v.inodes| == MAX_INODES && DirFull(v) && v.inodes[0].blockCount < DIRECT_BLOCKS
    requires InData(v, b) && !Used(v, b)
    ensures v.freeBlocks > 0 && b < v.total
    ensures var v' := PutBlock(WithInode(SetBit(v, b), 0, RootWith(v.inodes[0], b)), b,
            PutDirent(EmptyDirBlock(), 0, e));
            DirentAdded(v, v', own', v.inodes[0].blockCount, 0, e) && Tracked(v, v') && RootOnly(v, v')
    ensures Tracked(v, WithInode(SetBit(v, b), 0, RootWith(v.inodes[0], b)))
    ensures RootOnly(v, WithInode(SetBit(v, b), 0, RootWith(v.inodes[0], b)))
    ensures WithInode(SetBit(v, b), 0, RootWith(v.inodes[0], b)).total == v.total && DIRENTS_PER_BLOCK > 0
  {
    hide Readable, Block, PutDirent, Stored, EntryAt, BitmapBlocks, DirFull, DirentStored, SetBit, EmptyDirBlock,
         FreeSet;
    FreeBlockLeft(v, own, b);
    FullBefore(v);
    own' := NewDirBlock(v, own, b, e);
    StoredTracked(v,
                  PutBlock(WithInode(SetBit(v, b), 0, RootWith(v.inodes[0], b)), b, PutDirent(EmptyDirBlock(), 0, e)),
                  own', v.inodes[0].blockCount, 0, e);
    SetBitTracked(v, b);
    SetBitInodes(v, b);
  }

  lemma FullBefore(v: Vol)
    requires |v.inodes| == MAX_INODES && DirFull(v)
    ensures LiveBefore(v, DIRENTS_PER_BLOCK * v.inodes[0].blockCount + 0)
  {
    hide Live;
  }

  lemma FreeBlockLeft(v: Vol, own: Owners, b: u32)
    requires Readable(v, own) && InData(v, b) && !Used(v, b)
    ensures v.freeBlocks > 0 && Shape(v) && b < v.total
  {
    hide Core, Counted, NoHollow, EntryAt, InodeShape, BitmapBlocks;
    MappingFacts(v, own);
    FreeSetBounds(v, b);
  }

  lemma RootReadable(v: Vol, own: Owners)
    requires Readable(v, own)
    ensures |v.inodes| == MAX_INODES && 0 < MAX_INODES && v.freeBlocks == |FreeSet(v)| && Shape(v) && Tracked(v, v)
    ensures FreeSet(v) == {} ==> v.freeBlocks == 0
    ensures v.freeBlocks == 0 ==> FreeSet(v) == {}
    ensures RootOnly(v, v)
  {
    hide Core, Counted, NoHollow, EntryAt, InodeShape, BitmapBlocks, FreeSet;
    MappingFacts(v, own);
  }

  /** add_dirent. */
  method AddDirent(vol: DenyVolume, name: CString, ino: nat, ghost own: Owners)
    returns (st: Status, ghost own': Owners, ghost bi: nat, ghost i: nat)
    requires vol.Valid() && Readable(vol.View(), own) && 0 < ino < MAX_INODES && ValidName(name)
    modifies vol.Footprint()
    ensures vol.Valid() && Tracked(old(vol.View()), vol.View())
    ensures st == OK ==> DirentAdded(old(vol.View()), vol.View(), own', bi, i, MakeDirent(ino, name))
    ensures RootOnly(old(vol.View()), vol.View())
    ensures |old(vol.View()).inodes| == MAX_INODES
    ensures vol.Reliable() ==> st == if NoRoom(old(vol.View())) then ENOSPC else OK
    ensures vol.Reliable() && st != OK ==> vol.View() == old(vol.View())
    ensures st == EIO ==> vol.View() == old(vol.View())
    ensures st != EINVAL && st != EEXIST
  {
    hide *;
    ghost var v := vol.View();
    RootReadable(v, own);
    NameLength(name);
    own', bi, i := own, 0, 0;
    if |name| == 0 || |name| >= MAX_NAME_LEN {
      return ENAMETOOLONG, own', bi, i;
    }
    var b, n, data;
    st, b, n, data := FindFree(vol, own);
    if st == EIO {
      ReliableNotFaulty(vol);
      return;
    }
    if st == OK {
      bi, i := b, n;
      AddedToBlock(v, own, b, n, MakeDirent(ino, name));
      RootIndex(b);
      var root := vol.Node(0);
      st := vol.WriteBlock(root.direct[b], PutDirent(data, n, MakeDirent(ino, name)));
      return;
    }
    st, own', bi := GrowDirectory(vol, MakeDirent(ino, name), own);
  }

  lemma ReliableNotFaulty(vol: DenyVolume)
    ensures vol.Reliable() ==> !vol.faulty
  {
  }

  lemma NameLength(name: Name)
    requires ValidName(name)
    ensures 0 < |name| < MAX_NAME_LEN
  {
  }

  /** The part of add_dirent that adds a block to the root directory. */
  method GrowDirectory(vol: DenyVolume, e: Dirent, ghost own: Owners)
    returns (st: Status, ghost own': Owners, ghost bi: nat)
    requires vol.Valid() && Readable(vol.View(), own) && |vol.View().inodes| == MAX_INODES && DirFull(vol.View())
    modifies vol.Footprint()
    ensures vol.Valid() && Tracked(old(vol.View()), vol.View())
    ensures st == OK ==> DirentAdded(old(vol.View()), vol.View(), own', bi, 0, e)
    ensures RootOnly(old(vol.View()), vol.View())
    ensures vol.Reliable() ==> st == if NoRoom(old(vol.View())) then ENOSPC else OK
    ensures vol.Reliable() && st != OK ==> vol.View() == old(vol.View())
    ensures st == OK || st == ENOSPC || st == Failed
  {
    hide *;
    ghost var v := vol.View();
    RootReadable(v, own);
    var root := vol.Node(0);
    NoRoomIs(v);
    own', bi := own, root.blockCount;
    if root.blockCount >= DIRECT_BLOCKS {
      return ENOSPC, own', bi;
    }
    var b := vol.AllocBlock();
    if b < 0 {
      return ENOSPC, own', bi;
    }
    BlockNumber(v, b);
    own' := AddedInNewBlock(v, own, b, e);
    SetBitInodes(v, b);
    vol.PutInode(0, RootWith(root, b));
    st := vol.WriteBlock(b, PutDirent(EmptyDirBlock(), 0, e));
  }

  /** No inode but the root's changed. */
  ghost predicate RootOnly(v: Vol, v': Vol)
  {
    && |v.inodes| == MAX_INODES == |v'.inodes| && v'.freeInodes == v.freeInodes
    && forall i :: 0 < i < MAX_INODES ==> v'.inodes[i] == v.inodes[i]
  }

  lemma NoRoomIs(v: Vol)
    requires |v.inodes| == MAX_INODES
    ensures NoRoom(v) <==> DirFull(v) && (v.inodes[0].blockCount >= DIRECT_BLOCKS || v.freeBlocks == 0)
  {
  }

  lemma BlockNumber(v: Vol, b: int)
    requires Shape(v) && InData(v, b)
    ensures 0 <= b < INVALID
  {
  }

  // ---------------------------------------------------------- the new inode

  /** The volume with a free inode made an empty file. */
  function Claimed(v: Vol, ino: nat, now: u64): (v': Vol)
  {
    if ino < |v.inodes| && v.freeInodes > 0 then
      v.(inodes := v.inodes[ino := EmptyInode(FILE, now)], freeInodes := v.freeInodes - 1)
    else v
  }

  /** The volume after the rollback of a failed create: the inode is free again, with the new time. */
  function Unclaimed(v: Vol, ino: nat, now: u64): (v': Vol)
  {
    WithInode(v, ino, EmptyInode(FREE, now))
  }

  ghost predicate FreeInode(v: Vol, ino: nat)
  {
    && |v.inodes| == MAX_INODES && 0 < ino < MAX_INODES && v.inodes[ino].kind == FREE && v.freeInodes > 0
    && NoBlocks(v.inodes[ino]) && v.inodes[ino].blockCount == 0 && v.inodes[ino].size == 0
  }

  /** The inodes of all files before this one are in use. */
  ghost predicate InodesTaken(v: Vol, ino: nat)
  {
    |v.inodes| == MAX_INODES && forall j :: 0 < j < ino && j < MAX_INODES ==> v.inodes[j].kind != 0
  }

  lemma InodesTakenIntro(v: Vol, ino: nat)
    requires |v.inodes| == MAX_INODES >= ino && forall j :: 0 <= j < ino ==> v.inodes[j].kind != FREE
    ensures InodesTaken(v, ino)
  {
  }

  lemma FreeInodeFound(v: Vol, own: Owners, ino: nat)
    requires |v.inodes| == MAX_INODES && Consistent(v, own) && 0 < ino < MAX_INODES && v.inodes[ino].kind == FREE
    ensures FreeInode(v, ino)
  {
    hide Mapping, DirOk, InodeShape, Interval;
    FreeShape(v.inodes[ino], ino);
    assert ino in FreeInodeSet(v);
  }

  lemma FreeShape(n: Inode, i: nat)
    requires InodeShape(n, i) && i != 0 && n.kind == FREE
    ensures NoBlocks(n) && n.blockCount == 0 && n.size == 0
  {
  }

  /** Replacing an inode that maps nothing by another one changes no block and no directory entry. */
  lemma EmptyInodeFrame(v: Vol, own: Owners, ino: nat, n: Inode, v': Vol)
    requires Readable(v, own) && |v.inodes| == MAX_INODES && 0 < ino < MAX_INODES && NoBlocks(v.inodes[ino])
             && v.inodes[ino].blockCount == 0
    requires NoBlocks(n) && n.blockCount == 0
    requires v' == v.(inodes := v.inodes[ino := n], freeInodes := v'.freeInodes)
    ensures Shape(v) && Shape(v') && Mapping(v', own) && Tracked(v, v') && SameBlocks(v, v')
            && v'.inodes[0] == v.inodes[0]
    ensures forall s :: ValidSlot(s) ==> Ref(v', s) == Ref(v, s)
    ensures FreeSet(v') == FreeSet(v)
  {
    hide Core, Counted, NoHollow, Ref, Block, EntryAt, BitmapBlocks, FreeSet, InodeShape;
    MappingFacts(v, own);
    SameMapMapping(v, own, v');
    SameFreeSet(v, v');
  }

  /** The directory reads the same. */
  lemma SameEntries(v: Vol, own: Owners, v': Vol)
    requires Readable(v, own) && |v.inodes| == MAX_INODES == |v'.inodes| && v'.inodes[0] == v.inodes[0]
             && SameBlocks(v, v')
    requires Mapping(v', own) && v'.freeBlocks == v.freeBlocks
    ensures Readable(v', own) && DirSlots(v') == DirSlots(v)
    ensures forall k :: 0 <= k < DIRENTS_PER_BLOCK * DIRECT_BLOCKS ==> EntryAt(v', k) == EntryAt(v, k)
    ensures forall k :: Live(v', k) <==> Live(v, k)
    ensures (DirFull(v') <==> DirFull(v)) && (NoRoom(v') <==> NoRoom(v))
  {
    hide Mapping, Block, DecodeDirent, ValidDirent, InodeShape;
    forall k | 0 <= k < DIRENTS_PER_BLOCK * DIRECT_BLOCKS
      ensures EntryAt(v', k) == EntryAt(v, k)
    {
      assert Block(v', 0, k / DIRENTS_PER_BLOCK) == Block(v, 0, k / DIRENTS_PER_BLOCK);
    }
    hide EntryAt;
  }

  lemma ClaimedFacts(v: Vol, own: Owners, ino: nat, now: u64)
    requires Readable(v, own) && FreeInode(v, ino)
    ensures var v1 := Claimed(v, ino, now);
            && |v.inodes| == MAX_INODES == |v1.inodes| && Readable(v1, own) && Tracked(v, v1) && SameBlocks(v, v1)
            && v1.inodes == v.inodes[ino := EmptyInode(FILE, now)] && v1.freeInodes == v.freeInodes - 1
                && v1.freeBlocks == v.freeBlocks
            && (forall s :: ValidSlot(s) ==> Ref(v1, s) == Ref(v, s)) && FreeSet(v1) == FreeSet(v)
            && DirSlots(v1) == DirSlots(v)
            && (forall k :: 0 <= k < DIRENTS_PER_BLOCK * DIRECT_BLOCKS ==> EntryAt(v1, k) == EntryAt(v, k))
            && (forall k :: Live(v1, k) <==> Live(v, k))
            && (DirFull(v1) <==> DirFull(v)) && (NoRoom(v1) <==> NoRoom(v))
  {
    hide Readable, Mapping, Tracked, SameBlocks, Ref, FreeSet, Live, EntryAt, DirFull, NoRoom;
    EmptyInodeFrame(v, own, ino, EmptyInode(FILE, now), Claimed(v, ino, now));
    SameEntries(v, own, Claimed(v, ino, now));
  }

  /** Every slot in use refers to the block it referred to. */
  ghost predicate RefsKept(v: Vol, v': Vol)
    requires |v.inodes| == MAX_INODES == |v'.inodes|
  {
    forall s :: ValidSlot(s) && Ref(v, s) != INVALID ==> Ref(v', s) == Ref(v, s)
  }

  /** What a successful create does. */
  ghost predicate CreateEffect(v0: Vol, v: Vol, own: Owners, name: Name, ino: nat, k: nat)
  {
    && Shape(v0) && Consistent(v, own) && Added(v0, v, k, name, ino)
    && v.inodes[ino].size == v0.inodes[0].size == v.inodes[0].size == 0
    && (forall i :: 0 < i < MAX_INODES && i != ino ==> v.inodes[i] == v0.inodes[i])
    && OtherBlocks(v0, v, 0) && RefsKept(v0, v)
    && v.freeInodes == v0.freeInodes - 1
    && v.freeBlocks == v0.freeBlocks - (if DirFull(v0) then 1 else 0)
    && v.inodes[0].blockCount == v0.inodes[0].blockCount + (if DirFull(v0) then 1 else 0)
    && (NothingPast(v0) ==> NothingPast(v)) && (ZeroTail(v0) ==> ZeroTail(v))
  }

  /** A file that has no byte and no block, made at this time. */
  predicate NewFile(n: Inode, now: u64)
  {
    && n.kind == 1 && n.size == 0 && n.blockCount == 0 && n.mtime == now
    && (forall j :: 0 <= j < 20 ==> n.direct[j] == 0xFFFF_FFFF) && n.indirect == 0xFFFF_FFFF == n.double
  }

  /** A create takes the first free inode, for a new file, and the first free slot of the directory. */
  ghost predicate FirstFree(v0: Vol, v: Vol, ino: nat, k: nat, now: u64)
  {
    && |v0.inodes| == MAX_INODES == |v.inodes| && 0 < ino < MAX_INODES
    && v0.inodes[ino].kind == 0 && InodesTaken(v0, ino)
    && !Live(v0, k) && LiveBefore(v0, k)
    && NewFile(v.inodes[ino], now)
  }

  /** The table of files gains an empty file of that name. */
  lemma CreateTable(v0: Vol, v: Vol, own: Owners, name: Name, ino: nat, k: nat)
    requires |v0.inodes| == MAX_INODES && DirOk(v0) && CreateEffect(v0, v, own, name, ino, k)
    ensures |v.inodes| == MAX_INODES && DirOk(v) && name !in Table(v0) && Table(v) == Table(v0)[name := []]
  {
    hide *;
    CreatedContents(v0, v, own, name, ino, k);
    AddedTable(v0, v, k, name, ino);
    AddedNew(v0, v, k, name, ino);
  }

  lemma AddedNew(v: Vol, w: Vol, k: nat, name: Name, ino: nat)
    requires Added(v, w, k, name, ino) && DirOk(v)
    ensures name !in Table(v)
  {
    hide EntryAt, Contents, DirOk, Live;
  }

  lemma CreatedContents(v0: Vol, v: Vol, own: Owners, name: Name, ino: nat, k: nat)
    requires CreateEffect(v0, v, own, name, ino, k)
    ensures |v0.inodes| == MAX_INODES == |v.inodes| && ino < MAX_INODES && Contents(v, ino) == []
            && Added(v0, v, k, name, ino)
    ensures forall i :: 0 <= i < MAX_INODES && i != ino ==> Contents(v, i) == Contents(v0, i)
  {
    hide Consistent, Block, NothingPast, ZeroTail, DirFull, Live, Named, EntryChanged;
  }

  // ------------------------------------------------------ the whole operation

  /** Claiming an inode and adding its entry: the directory part. */
  lemma CreatedDirectory(v0: Vol, own0: Owners, v1: Vol, v: Vol, own: Owners, ino: nat, now: u64, bi: nat, i: nat,
                         name: Name)
    requires |v0.inodes| == MAX_INODES && FreeInode(v0, ino) && ValidName(name) && !Named(v0, name)
    requires Consistent(v0, own0) && Readable(v0, own0) && v1 == Claimed(v0, ino, now)
    requires DirentAdded(v1, v, own, bi, i, MakeDirent(ino, name))
    ensures |v.inodes| == MAX_INODES == |v1.inodes| && Shape(v) && Tracked(v0, v)
    ensures EntryChanged(v0, v, DIRENTS_PER_BLOCK * bi + i, MakeDirent(ino, name))
            && !Live(v0, DIRENTS_PER_BLOCK * bi + i)
    ensures InodeShape(v.inodes[0], 0)
            && v.inodes[0].blockCount == v0.inodes[0].blockCount + (if DirFull(v0) then 1 else 0)
    ensures v.freeBlocks == v0.freeBlocks - (if DirFull(v0) then 1 else 0)
  {
    hide Consistent, Tracked, Stored, Block, EntryAt, FreeSet, DirFull, NoRoom, PutDirent, EmptyDirBlock, MakeDirent,
         NoBlocks, Live,
         InodeShape, Claimed, Mapping, BitmapBlocks, Ref, Named, ValidName;
    ClaimedFacts(v0, own0, ino, now);
    StoredTracked(v1, v, own, bi, i, MakeDirent(ino, name));
    TrackedTransitive(v0, v1, v);
    MappingFacts(v1, own0);
    StoredRoot(v1, own0, v, own, bi, PutDirent(DirBlock(v1, bi), i, MakeDirent(ino, name)));
    StoredEntries(v1, v, own, bi, i, MakeDirent(ino, name));
    EntryChangedSame(v0, v1, v, DIRENTS_PER_BLOCK * bi + i, MakeDirent(ino, name));
  }

  lemma EntryChangedSame(v0: Vol, v1: Vol, v: Vol, k: nat, e: Dirent)
    requires |v0.inodes| == MAX_INODES == |v1.inodes| == |v.inodes| && EntryChanged(v1, v, k, e)
             && DirSlots(v1) == DirSlots(v0)
    requires forall j :: 0 <= j < DIRENTS_PER_BLOCK * DIRECT_BLOCKS ==> EntryAt(v1, j) == EntryAt(v0, j)
    ensures EntryChanged(v0, v, k, e)
  {
    hide EntryAt, FreeDirent;
  }

  /** Claiming an inode and adding its entry: inodes, kinds and counters. */
  lemma CreatedInodes(v0: Vol, own0: Owners, v1: Vol, v: Vol, own: Owners, ino: nat, now: u64, bi: nat, data: Sector)
    requires |v0.inodes| == MAX_INODES && FreeInode(v0, ino) && Consistent(v0, own0) && v1 == Claimed(v0, ino, now)
    requires Shape(v0) && Shape(v) && |v1.inodes| == MAX_INODES && Stored(v1, v, own, 0, bi, data)
             && InodeShape(v.inodes[0], 0)
    ensures v.inodes[ino] == EmptyInode(FILE, now) && (forall i :: 0 < i < MAX_INODES && i != ino ==>
              v.inodes[i] == v0.inodes[i])
    ensures v.inodes[0].kind == v0.inodes[0].kind && v0.inodes[0].size == 0 && v.inodes[0].size == 0
    ensures Shaped(v) && v.freeInodes == v0.freeInodes - 1 == |FreeInodeSet(v)|
    ensures forall i :: IsFile(v, i) <==> IsFile(v0, i) || i == ino
    ensures !IsFile(v0, ino)
  {
    hide Mapping, Tracked, Block, BitmapBlocks, Ref, DirOk, InodeShape, NoBlocks, Interval, Filled;
    RootShape(v0.inodes[0]);
    RootShape(v.inodes[0]);
    FileShape(v.inodes[ino], ino);
    forall i | 0 <= i < MAX_INODES
      ensures InodeShape(v.inodes[i], i)
    {
    }
    assert FreeInodeSet(v) == FreeInodeSet(v0) - {ino};
    assert ino in FreeInodeSet(v0);
  }

  lemma RootShape(n: Inode)
    requires InodeShape(n, 0)
    ensures n.kind == DIR && n.size == 0 && 0 < n.blockCount <= DIRECT_BLOCKS
  {
  }

  /** Claiming an inode and adding its entry: block maps and contents. */
  lemma CreatedBlocks(v0: Vol, own0: Owners, v1: Vol, v: Vol, own: Owners, ino: nat, now: u64, bi: nat, data: Sector)
    requires |v0.inodes| == MAX_INODES && FreeInode(v0, ino) && Readable(v0, own0) && v1 == Claimed(v0, ino, now)
    requires |v1.inodes| == MAX_INODES && Stored(v1, v, own, 0, bi, data) && |v.inodes| == MAX_INODES
    requires bi < DIRECT_BLOCKS
    ensures OtherBlocks(v0, v, 0) && RefsKept(v0, v) && Mapping(v, own)
    ensures forall l :: 0 <= l < MAX_FILE_BLOCKS ==> Phys(v, ino, l) == INVALID
  {
    hide Readable, Mapping, Tracked, Block, BitmapBlocks, Get, EntryAt, FreeSet, DirFull, NoRoom, Live, Claimed,
         SameFiles, DirSlots;
    RootReadable(v0, own0);
    ClaimedFacts(v0, own0, ino, now);
    RootMissing(v1, bi);
    forall s | ValidSlot(s) && s.ino != 0
      ensures Ref(v, s) == Ref(v0, s)
    {
      assert Ref(v1, s) == Ref(v0, s);
    }
    forall s | ValidSlot(s) && Ref(v0, s) != INVALID
      ensures Ref(v, s) == Ref(v0, s)
    {
      assert Ref(v1, s) == Ref(v0, s);
    }
    NoRefs(v0, ino);
    forall l | 0 <= l < MAX_FILE_BLOCKS
      ensures Phys(v, ino, l) == INVALID
    {
      assert Phys(v0, ino, l) == INVALID;
    }
  }

  lemma RootMissing(v: Vol, bi: nat)
    requires |v.inodes| == MAX_INODES && bi < DIRECT_BLOCKS
    ensures bi < MAX_FILE_BLOCKS
  {
  }

  lemma NoRefs(v: Vol, ino: nat)
    requires FreeInode(v, ino) && |v.inodes| == MAX_INODES && ino < MAX_INODES && Shape(v)
    ensures forall l :: 0 <= l < MAX_FILE_BLOCKS ==> Phys(v, ino, l) == INVALID
  {
    hide Get, BitmapBlocks;
    EmptyRefs(v, ino);
  }

  lemma EmptyRefs(v: Vol, ino: nat)
    requires |v.inodes| == MAX_INODES && ino < MAX_INODES && NoBlocks(v.inodes[ino]) && |v.disk| <= INVALID
    ensures forall l :: ValidLoc(l) ==> Ref(v, Slot(ino, l)) == INVALID
  {
    hide Ptr;
  }

  lemma CreatedFrom(v0: Vol, own0: Owners, v1: Vol, v: Vol, own: Owners, ino: nat, now: u64, bi: nat, i: nat,
                    name: Name)
    requires |v0.inodes| == MAX_INODES && FreeInode(v0, ino) && ValidName(name) && !Named(v0, name)
    requires Consistent(v0, own0) && v1 == Claimed(v0, ino, now)
             && DirentAdded(v1, v, own, bi, i, MakeDirent(ino, name))
    ensures CreateEffect(v0, v, own, name, ino, DIRENTS_PER_BLOCK * bi + i) && Tracked(v0, v)
    ensures ino < |v.inodes| == MAX_INODES && v.inodes[ino] == EmptyInode(FILE, now)
  {
    hide *;
    DirectoryReadable(v0, own0);
    RootReadable(v0, own0);
    ClaimedFacts(v0, own0, ino, now);
    CreatedDirectory(v0, own0, v1, v, own, ino, now, bi, i, name);
    var data := DirentAddedStored(v0, v1, v, own, bi, i, name, ino);
    CreatedInodes(v0, own0, v1, v, own, ino, now, bi, data);
    CreatedBlocks(v0, own0, v1, v, own, ino, now, bi, data);
    CreatedAdded(v0, v, own, name, ino, DIRENTS_PER_BLOCK * bi + i);
    CreatedEffect(v0, own0, v, own, name, ino, DIRENTS_PER_BLOCK * bi + i, now);
  }

  lemma CreatedFirst(v0: Vol, own0: Owners, v1: Vol, v: Vol, own: Owners, ino: nat, now: u64, bi: nat, i: nat,
                     name: Name)
    requires |v0.inodes| == MAX_INODES && FreeInode(v0, ino) && ValidName(name)
    requires Consistent(v0, own0) && v1 == Claimed(v0, ino, now)
             && DirentAdded(v1, v, own, bi, i, MakeDirent(ino, name))
    requires |v.inodes| == MAX_INODES && v.inodes[ino] == EmptyInode(FILE, now)
    requires InodesTaken(v0, ino)
    ensures FirstFree(v0, v, ino, DIRENTS_PER_BLOCK * bi + i, now)
  {
    hide Consistent, DirentStored, Live, DirFull, MakeDirent, Claimed, Readable, ValidName, Tracked, Ref, SameBlocks,
         EntryAt, NoRoom, FreeSet;
    DirectoryReadable(v0, own0);
    ClaimedFacts(v0, own0, ino, now);
  }

  lemma FirstFreeMeta(v0: Vol, v: Vol, ino: nat, k: nat, now: u64, w: Vol)
    requires FirstFree(v0, v, ino, k, now) && MetaWritten(v, w)
    ensures FirstFree(v0, w, ino, k, now)
  {
    hide MetaWritten, Live, LiveBefore, NewFile;
    MetaWrittenShape(v, w);
  }

  lemma DirentAddedStored(v0: Vol, v1: Vol, v: Vol, own: Owners, bi: nat, i: nat, name: Name, ino: nat)
    returns (data: Sector)
    requires FreeInode(v0, ino) && ValidName(name)
    requires DirentAdded(v1, v, own, bi, i, MakeDirent(ino, name))
    ensures bi < DIRECT_BLOCKS && Stored(v1, v, own, 0, bi, data)
  {
    hide Stored, Live, DirFull, PutDirent, MakeDirent, Block, EmptyDirBlock, ValidName;
    data := PutDirent(DirBlock(v1, bi), i, MakeDirent(ino, name));
  }

  lemma CreatedAdded(v0: Vol, v: Vol, own: Owners, name: Name, ino: nat, k: nat)
    requires |v0.inodes| == MAX_INODES == |v.inodes| && FreeInode(v0, ino) && ValidName(name) && !Named(v0, name)
    requires EntryChanged(v0, v, k, MakeDirent(ino, name)) && !Live(v0, k)
    requires forall i :: IsFile(v, i) <==> IsFile(v0, i) || i == ino
    requires !IsFile(v0, ino)
    ensures Added(v0, v, k, name, ino) && 0 < ino < MAX_INODES
  {
    hide EntryChanged, Live, Named, MakeDirent, ValidName, NoBlocks;
  }

  lemma CreatedEffect(v0: Vol, own0: Owners, v: Vol, own: Owners, name: Name, ino: nat, k: nat, now: u64)
    requires |v0.inodes| == MAX_INODES == |v.inodes| && Consistent(v0, own0) && Added(v0, v, k, name, ino) && Shape(v0)
    requires Mapping(v, own) && Shaped(v) && v.freeInodes == v0.freeInodes - 1 == |FreeInodeSet(v)|
             && OtherBlocks(v0, v, 0) && RefsKept(v0, v)
    requires 0 < ino < MAX_INODES && v.inodes[ino] == EmptyInode(FILE, now)
    requires forall i :: 0 < i < MAX_INODES && i != ino ==> v.inodes[i] == v0.inodes[i]
    requires v0.inodes[0].size == v.inodes[0].size == 0
    requires v.freeBlocks == v0.freeBlocks - (if DirFull(v0) then 1 else 0)
    requires v.inodes[0].blockCount == v0.inodes[0].blockCount + (if DirFull(v0) then 1 else 0)
    requires forall i :: IsFile(v, i) <==> IsFile(v0, i) || i == ino
    requires forall l :: 0 <= l < MAX_FILE_BLOCKS ==> Phys(v, ino, l) == INVALID
    ensures CreateEffect(v0, v, own, name, ino, k)
  {
    hide *;
    ConsistentDirectory(v0, own0);
    AddedDirOk(v0, v, k, name, ino);
    CreatedTails(v0, own0, v, own, ino);
    CreatedConsistent(v, own);
    CreateEffectIntro(v0, v, own, name, ino, k, now);
  }

  lemma ConsistentDirectory(v: Vol, own: Owners)
    requires Consistent(v, own)
    ensures |v.inodes| == MAX_INODES && DirOk(v) && v.freeInodes == |FreeInodeSet(v)|
    ensures forall i :: IsFile(v, i) ==> i != 0
  {
    hide Core, Counted, NoHollow, DirOk, FreeInodeSet;
    MappingFacts(v, own);
    assert InodeShape(v.inodes[0], 0);
  }

  lemma CreatedConsistent(v: Vol, own: Owners)
    requires |v.inodes| == MAX_INODES && Mapping(v, own) && Shaped(v) && v.freeInodes == |FreeInodeSet(v)| && DirOk(v)
    ensures Consistent(v, own)
  {
    hide Mapping, Shaped, FreeInodeSet, DirOk;
  }

  lemma CreatedTails(v0: Vol, own0: Owners, v: Vol, own: Owners, ino: nat)
    requires |v0.inodes| == MAX_INODES == |v.inodes| && Consistent(v0, own0) && Mapping(v, own) && OtherBlocks(v0, v, 0)
    requires 0 < ino < MAX_INODES
    requires forall i :: 0 < i < MAX_INODES && i != ino ==> v.inodes[i] == v0.inodes[i]
    requires forall i :: IsFile(v0, i) ==> i != 0
    requires forall i :: IsFile(v, i) <==> IsFile(v0, i) || i == ino
    requires forall l :: 0 <= l < MAX_FILE_BLOCKS ==> Phys(v, ino, l) == INVALID
    ensures NothingPast(v0) ==> NothingPast(v)
    ensures ZeroTail(v0) ==> ZeroTail(v)
  {
    hide Mapping, Consistent, Get, Block, BitmapBlocks, ByteAt;
    MappingFacts(v, own);
    forall i, lb | IsFile(v, i) && i != ino && 0 <= lb < MAX_FILE_BLOCKS
      ensures Phys(v, i, lb) == Phys(v0, i, lb)
    {
    }
    forall i, k | IsFile(v, i) && 0 <= k < MAX_BYTES
      ensures if i == ino then ByteAt(v, i, k) == 0 else ByteAt(v, i, k) == ByteAt(v0, i, k)
    {
      if i == ino { HoleByte(v, i, k); } else { SameByte(v0, v, i, k); }
    }
  }

  lemma HoleByte(v: Vol, ino: nat, k: nat)
    requires Shape(v) && ino < MAX_INODES && k < MAX_BYTES && k / SECTOR_SIZE < MAX_FILE_BLOCKS
             && Phys(v, ino, k / SECTOR_SIZE) == INVALID
    ensures ByteAt(v, ino, k) == 0
  {
    hide Get, BitmapBlocks;
  }

  lemma SameByte(v0: Vol, v: Vol, ino: nat, k: nat)
    requires |v0.inodes| == MAX_INODES == |v.inodes| && OtherBlocks(v0, v, 0) && 0 < ino < MAX_INODES && k < MAX_BYTES
    ensures ByteAt(v, ino, k) == ByteAt(v0, ino, k)
  {
    hide Block;
  }

  lemma CreateEffectIntro(v0: Vol, v: Vol, own: Owners, name: Name, ino: nat, k: nat, now: u64)
    requires |v0.inodes| == MAX_INODES == |v.inodes| && Shape(v0) && Consistent(v, own) && Added(v0, v, k, name, ino)
    requires v.freeInodes == v0.freeInodes - 1 && OtherBlocks(v0, v, 0) && RefsKept(v0, v) && 0 < ino < MAX_INODES
             && v.inodes[ino] == EmptyInode(FILE, now)
    requires forall i :: 0 < i < MAX_INODES && i != ino ==> v.inodes[i] == v0.inodes[i]
    requires v0.inodes[0].size == v.inodes[0].size == 0
    requires v.freeBlocks == v0.freeBlocks - (if DirFull(v0) then 1 else 0)
    requires v.inodes[0].blockCount == v0.inodes[0].blockCount + (if DirFull(v0) then 1 else 0)
    requires (NothingPast(v0) ==> NothingPast(v)) && (ZeroTail(v0) ==> ZeroTail(v))
    ensures CreateEffect(v0, v, own, name, ino, k)
  {
    hide Consistent, Added, OtherBlocks, RefsKept, NothingPast, ZeroTail, DirFull, BitmapBlocks;
  }

  /** The error that a create is refused with; OK when it goes through. */
  ghost function CreateRefused(v: Vol, name: Name): (st: Status)
    requires |v.inodes| == MAX_INODES
  {
    if !ValidName(name) then EINVAL
    else if Named(v, name) then EEXIST
    else if v.freeInodes == 0 || NoRoom(v) then ENOSPC
    else OK
  }

  /** alloc_inode: the first free inode. */
  method AllocInode(vol: DenyVolume, ghost own: Owners) returns (r: int)
    requires vol.Valid() && Consistent(vol.View(), own)
    modifies vol.Footprint()
    ensures vol.Valid()
    ensures r < 0 ==> vol.View() == old(vol.View()) && vol.View().freeInodes == 0
    ensures r >= 0 ==>
              FreeInode(old(vol.View()), r) && InodesTaken(old(vol.View()), r)
                 && vol.View() == old(vol.View()).(freeInodes := old(vol.View()).freeInodes - 1)
  {
    hide *;
    ghost var v := vol.View();
    InodeCount(v, own);
    var i := 1;
    while i < MAX_INODES
      invariant 1 <= i <= MAX_INODES && vol.Valid() && vol.View() == v
      invariant forall j :: 0 <= j < i ==> v.inodes[j].kind != FREE
    {
      if vol.Node(i).kind == FREE {
        FreeInodeFound(v, own, i);
        InodesTakenIntro(v, i);
        FreeInodeCount(v, i);
        FreeInodesOf(vol);
        vol.PutFreeInodes(vol.freeInodes - 1);
        return i;
      }
      i := i + 1;
    }
    NoFreeInode(v);
    r := -1;
  }

  lemma InodeCount(v: Vol, own: Owners)
    requires Consistent(v, own)
    ensures |v.inodes| == MAX_INODES > 1 && v.inodes[0].kind != FREE && v.freeInodes == |FreeInodeSet(v)|
  {
    hide Core, Counted, NoHollow, DirOk, FreeInodeSet;
    MappingFacts(v, own);
    assert InodeShape(v.inodes[0], 0);
  }

  lemma FreeInodeCount(v: Vol, ino: nat)
    requires FreeInode(v, ino)
    ensures v.freeInodes > 0
  {
  }

  lemma NoFreeInode(v: Vol)
    requires |v.inodes| == MAX_INODES && forall j :: 0 <= j < MAX_INODES ==> v.inodes[j].kind != FREE
    ensures |FreeInodeSet(v)| == 0
  {
    assert FreeInodeSet(v) == {};
  }

  /** denyfs_vol_create. */
  method VolCreate(vol: DenyVolume, name: CString, now: u64, ghost own: Owners)
    returns (st: Status, ino: nat, ghost own': Owners, ghost k: nat)
    requires vol.Valid() && Consistent(vol.View(), own) && Clean(vol.View())
    modifies vol.Footprint()
    ensures vol.Valid() && Clean(vol.View()) && vol.View().foreign == old(vol.View()).foreign
    ensures |old(vol.View()).inodes| == MAX_INODES
    ensures st == OK ==> CreateEffect(old(vol.View()), vol.View(), own', name, ino, k) && OnDisk(vol.View(), vol.mac)
    ensures st == OK ==> FirstFree(old(vol.View()), vol.View(), ino, k, now)
    ensures |name| == 0 || |name| > 250 || 47 in name || name == [46] || name == [46, 46] ==> st == EINVAL
    ensures vol.Reliable() && st == EINVAL ==>
              |name| == 0 || |name| > 250 || 47 in name || name == [46] || name == [46, 46]
    ensures vol.Reliable() ==> st == CreateRefused(old(vol.View()), name)
    ensures vol.Reliable() && st != OK ==> CreateUndone(old(vol.View()), vol.View(), now)
    ensures st == EINVAL || st == EEXIST ==> vol.View() == old(vol.View())
    ensures st == EIO ==> Consistent(vol.View(), own')
  {
    hide *;
    ghost var v0 := vol.View();
    DirectoryReadable(v0, own);
    CreateUnchanged(v0, own, now);
    NameMeans(name);
    if ValidName(name) { RefusedOld(v0, name); }
    ino, own', k := 0, own, 0;
    if !ValidName(name) {
      RefusedName(v0, name);
      st := EINVAL;
      return;
    }
    st := CheckNew(vol, name, own);
    if st != OK {
      return;
    }
    var r := AllocInode(vol, own);
    if r < 0 {
      CreateUnchanged(v0, own, now);
      st := ENOSPC;
      return;
    }
    ino := r;
    st, own', k := AddFile(vol, name, ino, now, v0, own);
  }

  /** Nothing happened, or only the time of a free inode changed. */
  ghost predicate CreateUndone(v0: Vol, v: Vol, now: u64)
  {
    v == v0 || exists ino :: FreeInode(v0, ino) && v == Unclaimed(v0, ino, now)
  }

  lemma CreateUnchanged(v: Vol, own: Owners, now: u64)
    requires Consistent(v, own)
    ensures CreateUndone(v, v, now) && |v.inodes| == MAX_INODES && Shape(v)
  {
    hide Core, Counted, NoHollow, DirOk, FreeInodeSet, Shaped;
    MappingFacts(v, own);
  }

  /** The names that a create refuses. */
  lemma NameMeans(name: CString)
    ensures |name| == 0 || |name| > 250 || 47 in name || name == [46] || name == [46, 46] <==> !ValidName(name)
  {
  }

  lemma RefusedName(v: Vol, name: Name)
    requires |v.inodes| == MAX_INODES && !ValidName(name)
    ensures CreateRefused(v, name) == EINVAL
  {
    hide ValidName, NoRoom, Named;
  }

  lemma RefusedOld(v: Vol, name: Name)
    requires |v.inodes| == MAX_INODES && ValidName(name)
    ensures Named(v, name) ==> CreateRefused(v, name) == EEXIST
    ensures !Named(v, name) ==> CreateRefused(v, name) == if v.freeInodes == 0 || NoRoom(v) then ENOSPC else OK
  {
    hide ValidName, NoRoom, Named;
  }

  /** The duplicate check of a create. */
  method CheckNew(vol: DenyVolume, name: CString, ghost own: Owners) returns (st: Status)
    requires vol.Valid() && Consistent(vol.View(), own) && ValidName(name)
    ensures vol.Valid() && vol.View() == old(vol.View()) && |vol.View().inodes| == MAX_INODES
    ensures st == OK ==> !Named(vol.View(), name)
    ensures vol.Reliable() ==> st == if Named(vol.View(), name) then EEXIST else OK
  {
    hide *;
    NameLength(name);
    ReliableNotFaulty(vol);
    var ino;
    ghost var k;
    st, ino, k := VolLookup(vol, name, own);
    if st == OK {
      EntryNamed(vol.View(), k, name, ino);
      return EEXIST;
    }
    if st != ENOENT {
      return;
    }
    st := OK;
  }

  lemma EntryNamed(v: Vol, k: nat, name: Name, ino: nat)
    requires EntryFor(v, k, name, ino)
    ensures |v.inodes| == MAX_INODES && Named(v, name)
  {
    hide EntryAt;
  }

  /** Initialises the inode, adds the entry and flushes; an inode whose entry cannot be added is free again. */
  method AddFile(vol: DenyVolume, name: CString, ino: nat, now: u64, ghost v0: Vol, ghost own: Owners)
    returns (st: Status, ghost own': Owners, ghost k: nat)
    requires vol.Valid() && FreeInode(v0, ino) && vol.View() == v0.(freeInodes := v0.freeInodes - 1)
    requires Consistent(v0, own) && Readable(v0, own) && Clean(v0) && ValidName(name) && |v0.inodes| == MAX_INODES
             && !Named(v0, name)
    requires InodesTaken(v0, ino)
    modifies vol.Footprint()
    ensures vol.Valid() && Clean(vol.View()) && vol.View().foreign == v0.foreign
    ensures st == OK ==> CreateEffect(v0, vol.View(), own', name, ino, k) && OnDisk(vol.View(), vol.mac)
    ensures st == OK ==> FirstFree(v0, vol.View(), ino, k, now)
    ensures vol.Reliable() ==> st == if NoRoom(v0) then ENOSPC else OK
    ensures vol.Reliable() && st != OK ==> CreateUndone(v0, vol.View(), now)
    ensures st == EIO ==> Consistent(vol.View(), own')
    ensures st != EINVAL && st != EEXIST
  {
    hide *;
    ClaimedIs(v0, ino, now);
    vol.PutInode(ino, EmptyInode(FILE, now));
    ghost var v1 := vol.View();
    ClaimedFacts(v0, own, ino, now);
    ghost var bi, i;
    st, own', bi, i := AddDirent(vol, name, ino, own);
    ghost var v := vol.View();
    TrackedTransitive(v0, v1, v);
    k := DIRENTS_PER_BLOCK * bi + i;
    if st != OK {
      RollBack(vol, ino, now, v0, v1);
      if v == v1 {
        own' := own;
        UndoneMeaning(v0, own, vol.View(), now);
      }
      return;
    }
    CreatedFrom(v0, own, v1, v, own', ino, now, bi, i, name);
    CreatedFirst(v0, own, v1, v, own', ino, now, bi, i, name);
    TrackedClean(v0, v);
    TrackedForeign(v0, v);
    st := VolFlush(vol);
    CreateEffectMeta(v0, v, own', name, ino, k, vol.View());
    CreateEffectFacts(v0, vol.View(), own', name, ino, k);
    FirstFreeMeta(v0, v, ino, k, now, vol.View());
    if st != OK {
      st := EIO;
    }
  }

  lemma ClaimedIs(v: Vol, ino: nat, now: u64)
    requires FreeInode(v, ino)
    ensures v.freeInodes > 0 && 0 < ino < MAX_INODES
    ensures WithInode(v.(freeInodes := v.freeInodes - 1), ino, EmptyInode(FILE, now)) == Claimed(v, ino, now)
  {
  }

  /** Undoes the allocation of an inode. */
  method RollBack(vol: DenyVolume, ino: nat, now: u64, ghost v0: Vol, ghost v1: Vol)
    requires vol.Valid() && FreeInode(v0, ino) && v1 == Claimed(v0, ino, now) && RootOnly(v1, vol.View())
    requires Tracked(v0, vol.View()) && Clean(v0)
    modifies vol.Footprint()
    ensures vol.Valid() && Clean(vol.View()) && vol.View().foreign == v0.foreign
    ensures old(vol.View()) == v1 ==> CreateUndone(v0, vol.View(), now)
  {
    hide *;
    ghost var v := vol.View();
    RollBackFacts(v0, v1, v, ino, now);
    var inode := vol.Node(ino);
    vol.PutInode(ino, inode.(kind := FREE));
    FreeInodesOf(vol);
    vol.PutFreeInodes(vol.freeInodes + 1);
    TrackedClean(v0, vol.View());
    TrackedForeign(v0, vol.View());
  }

  lemma FreeInodesOf(vol: DenyVolume)
    requires vol.Valid()
    ensures vol.View().freeInodes == vol.freeInodes
  {
    hide BitmapBlocks, DenyVolume.Mounted;
  }

  lemma RollBackFacts(v0: Vol, v1: Vol, v: Vol, ino: nat, now: u64)
    requires FreeInode(v0, ino) && v1 == Claimed(v0, ino, now) && RootOnly(v1, v) && Tracked(v0, v)
    ensures 0 < ino < MAX_INODES && v.freeInodes < INVALID && |v.inodes| == MAX_INODES
            && v.inodes[ino] == EmptyInode(FILE, now)
    ensures var u := WithInode(v, ino, EmptyInode(FILE, now).(kind := FREE));
            u.freeInodes == v.freeInodes && Tracked(v0, u.(freeInodes := v.freeInodes + 1))
            && (v == v1 ==> CreateUndone(v0, u.(freeInodes := v.freeInodes + 1), now))
  {
    hide BitmapBlocks, BitmapSector;
    var u := WithInode(v, ino, EmptyInode(FILE, now).(kind := FREE)).(freeInodes := v.freeInodes + 1);
    if v == v1 {
      assert u == Unclaimed(v0, ino, now);
    }
  }

  lemma CreateEffectMeta(v0: Vol, v: Vol, own: Owners, name: Name, ino: nat, k: nat, w: Vol)
    requires CreateEffect(v0, v, own, name, ino, k) && MetaWritten(v, w)
    ensures CreateEffect(v0, w, own, name, ino, k) && w.foreign == v.foreign
  {
    hide *;
    CreateEffectFacts(v0, v, own, name, ino, k);
    MetaWrittenShape(v, w);
    MetaWrittenFiles(v, own, w);
    MetaWrittenRefs(v, own, w);
    AddedMeta(v0, v, k, name, ino, w);
    OtherBlocksMeta(v0, v, own, w);
    RefsKeptMeta(v0, v, w);
    CreateEffectSame(v0, v, own, name, ino, k, w);
  }

  lemma CreateEffectFacts(v0: Vol, v: Vol, own: Owners, name: Name, ino: nat, k: nat)
    requires CreateEffect(v0, v, own, name, ino, k)
    ensures Consistent(v, own) && |v0.inodes| == MAX_INODES == |v.inodes| && Added(v0, v, k, name, ino)
            && OtherBlocks(v0, v, 0)
    ensures RefsKept(v0, v)
  {
    hide Consistent, OtherBlocks, RefsKept, BitmapBlocks, EntryChanged, Live, NothingPast, ZeroTail, DirFull;
  }

  lemma AddedMeta(v0: Vol, v: Vol, k: nat, name: Name, ino: nat, w: Vol)
    requires Added(v0, v, k, name, ino) && |v.inodes| == MAX_INODES == |w.inodes| && w.inodes == v.inodes
             && SameDirectory(v, w)
    ensures Added(v0, w, k, name, ino)
  {
    hide SameDirectory, EntryAt, Live, Named, ValidName;
    DirectoryFrame(v, w);
  }

  lemma RefsKeptMeta(v0: Vol, v: Vol, w: Vol)
    requires |v0.inodes| == MAX_INODES == |v.inodes| == |w.inodes| && RefsKept(v0, v)
    requires forall s :: ValidSlot(s) ==> Ref(w, s) == Ref(v, s)
    ensures RefsKept(v0, w)
  {
    hide Ref;
  }

  lemma OtherBlocksMeta(v0: Vol, v: Vol, own: Owners, w: Vol)
    requires |v0.inodes| == MAX_INODES == |v.inodes| && OtherBlocks(v0, v, 0) && Consistent(v, own) && MetaWritten(v, w)
    ensures |w.inodes| == MAX_INODES && OtherBlocks(v0, w, 0)
  {
    hide Mapping, MetaWritten, Block, Ref, DirOk, Shaped, FreeInodeSet;
    MetaWrittenShape(v, w);
    MetaWrittenMapping(v, own, w);
  }

  lemma CreateEffectSame(v0: Vol, v: Vol, own: Owners, name: Name, ino: nat, k: nat, w: Vol)
    requires CreateEffect(v0, v, own, name, ino, k) && |v.inodes| == MAX_INODES == |w.inodes|
    requires w.inodes == v.inodes && w.freeInodes == v.freeInodes && w.freeBlocks == v.freeBlocks
    requires Consistent(w, own) && Added(v0, w, k, name, ino) && |v0.inodes| == MAX_INODES && OtherBlocks(v0, w, 0)
             && RefsKept(v0, w)
    requires (NothingPast(v) ==> NothingPast(w)) && (ZeroTail(v) ==> ZeroTail(w))
    ensures CreateEffect(v0, w, own, name, ino, k)
  {
    hide Consistent, OtherBlocks, RefsKept, BitmapBlocks, EntryChanged, Live, NothingPast, ZeroTail, DirFull;
  }

  // ------------------------------------------- the directory never fills up

  /** The files that the first n slots name, all different. */
  lemma {:induction false} FilesNamed(v: Vol, n: nat) returns (files: set<nat>)
    requires |v.inodes| == MAX_INODES && DirOk(v) && n <= DIRENTS_PER_BLOCK * DIRECT_BLOCKS
    requires forall k :: 0 <= k < n ==> Live(v, k)
    ensures |files| == n
    ensures forall i :: i in files ==> IsFile(v, i) && exists k :: 0 <= k < n && InoAt(v, k) == i
  {
    hide EntryAt, Listed;
    files := {};
    if n > 0 {
      files := FilesNamed(v, n - 1);
      assert InoAt(v, n - 1) !in files;
      files := files + {InoAt(v, n - 1)};
    }
  }

  /** A full directory has at most 3 blocks: there are only 63 inodes for files. */
  lemma FullDirectory(v: Vol, own: Owners)
    requires |v.inodes| == MAX_INODES && Consistent(v, own) && DirFull(v)
    ensures DirSlots(v) + v.freeInodes <= MAX_INODES - 1
    ensures v.inodes[0].blockCount <= 3
  {
    hide Mapping, Live, Shaped, FreeInodeSet;
    ConsistentDirectory(v, own);
    DirectoryReadable(v, own);
    RootBlock(v, own, 0);
    var files := FilesNamed(v, DirSlots(v));
    FilesAndFree(v, files);
  }

  lemma FilesAndFree(v: Vol, files: set<nat>)
    requires |v.inodes| == MAX_INODES && forall i :: i in files ==> IsFile(v, i) && i != 0
    requires v.inodes[0].kind != FREE
    ensures |files| + |FreeInodeSet(v)| <= MAX_INODES - 1
  {
    hide Interval;
    assert files !! FreeInodeSet(v);
    SubsetSize(files + FreeInodeSet(v), Interval(1, MAX_INODES));
    assert |files + FreeInodeSet(v)| == |files| + |FreeInodeSet(v)|;
  }

  /** The directory-full branch of add_dirent is dead: adding an entry fails only for lack of a free block. */
  lemma RoomForEntry(v: Vol, own: Owners)
    requires |v.inodes| == MAX_INODES && Consistent(v, own)
    ensures NoRoom(v) <==> DirFull(v) && v.freeBlocks == 0
  {
    hide Consistent, DirFull;
    if DirFull(v) { FullDirectory(v, own); }
  }

  /** Creating files never takes the root directory past 4 blocks. */
  lemma RootStaysSmall(v0: Vol, own0: Owners, v: Vol, own: Owners, name: Name, ino: nat, k: nat)
    requires |v0.inodes| == MAX_INODES && v0.inodes[0].blockCount <= 4 && Consistent(v0, own0)
    requires CreateEffect(v0, v, own, name, ino, k)
    ensures |v.inodes| == MAX_INODES && v.inodes[0].blockCount <= 4
  {
    hide Consistent, DirFull, Added, OtherBlocks, NothingPast, ZeroTail, BitmapBlocks;
    CreateEffectFacts(v0, v, own, name, ino, k);
    if DirFull(v0) { FullDirectory(v0, own0); }
  }

  /** A create that failed left everything as it was, but for the time of a free inode. */
  lemma UndoneMeaning(v0: Vol, own: Owners, v: Vol, now: u64)
    requires Consistent(v0, own) && CreateUndone(v0, v, now)
    ensures |v0.inodes| == MAX_INODES == |v.inodes| && Consistent(v, own) && DirOk(v0) && Table(v) == Table(v0)
    ensures v.freeInodes == v0.freeInodes && v.freeBlocks == v0.freeBlocks && v.bitmap == v0.bitmap && v.disk == v0.disk
    ensures (NothingPast(v0) ==> NothingPast(v)) && (ZeroTail(v0) ==> ZeroTail(v)) && v.inodes[0] == v0.inodes[0]
  {
    hide *;
    ConsistentDirectory(v0, own);
    if v != v0 {
      var ino := UndoneInode(v0, v, now);
      FreedInode(v0, own, ino, now);
    }
  }

  lemma UndoneInode(v0: Vol, v: Vol, now: u64) returns (ino: nat)
    requires CreateUndone(v0, v, now) && v != v0
    ensures FreeInode(v0, ino) && v == Unclaimed(v0, ino, now)
  {
    hide FreeInode, Unclaimed;
    ino :| FreeInode(v0, ino) && v == Unclaimed(v0, ino, now);
  }

  lemma FreedInode(v0: Vol, own: Owners, ino: nat, now: u64)
    requires |v0.inodes| == MAX_INODES && Consistent(v0, own) && DirOk(v0) && FreeInode(v0, ino)
    ensures var v := Unclaimed(v0, ino, now);
            && |v.inodes| == MAX_INODES && Consistent(v, own) && Table(v) == Table(v0)
            && v.freeInodes == v0.freeInodes && v.freeBlocks == v0.freeBlocks && v.bitmap == v0.bitmap
                && v.disk == v0.disk
            && (NothingPast(v0) ==> NothingPast(v)) && (ZeroTail(v0) ==> ZeroTail(v)) && v.inodes[0] == v0.inodes[0]
  {
    hide Mapping, DirOk, Table, Block, Ref, Contents, InodeShape, BitmapBlocks, SameDirectory, FreeInodeSet, ByteAt;
    var v := Unclaimed(v0, ino, now);
    DirectoryReadable(v0, own);
    EmptyInodeFrame(v0, own, ino, EmptyInode(FREE, now), v);
    FreedSame(v0, ino, v);
    DirectoryFrame(v0, v);
    SameTable(v0, v);
    FreedKinds(v0, ino, v);
    FreedTails(v0, ino, v);
  }

  lemma FreedSame(v0: Vol, ino: nat, v: Vol)
    requires |v0.inodes| == MAX_INODES == |v.inodes| && 0 < ino < MAX_INODES && SameBlocks(v0, v)
    requires v.inodes == v0.inodes[ino := v.inodes[ino]]
    requires v.inodes[ino].kind == v0.inodes[ino].kind && v.inodes[ino].size == v0.inodes[ino].size
    ensures SameDirectory(v0, v)
    ensures forall i :: 0 <= i < MAX_INODES ==> Contents(v, i) == Contents(v0, i)
    ensures forall i, k :: 0 <= i < MAX_INODES && 0 <= k < MAX_BYTES ==> ByteAt(v, i, k) == ByteAt(v0, i, k)
  {
    hide Block;
  }

  lemma FreedKinds(v0: Vol, ino: nat, v: Vol)
    requires |v0.inodes| == MAX_INODES == |v.inodes| && 0 < ino < MAX_INODES && Shaped(v0)
    requires v.inodes == v0.inodes[ino := v.inodes[ino]] && v.inodes[ino].kind == v0.inodes[ino].kind == FREE
    requires NoBlocks(v.inodes[ino]) && v.inodes[ino].size == 0 && v.inodes[ino].blockCount == 0
    ensures Shaped(v) && FreeInodeSet(v) == FreeInodeSet(v0)
  {
    hide InodeShape, NoBlocks;
    FreeShapeIntro(v.inodes[ino], ino);
    forall i | 0 <= i < MAX_INODES
      ensures InodeShape(v.inodes[i], i) && v.inodes[i].kind == v0.inodes[i].kind
    {
    }
  }

  lemma FreeShapeIntro(n: Inode, i: nat)
    requires i != 0 && n.kind == FREE && NoBlocks(n) && n.size == 0 && n.blockCount == 0
    ensures InodeShape(n, i)
  {
  }

  lemma FreedTails(v0: Vol, ino: nat, v: Vol)
    requires |v0.inodes| == MAX_INODES == |v.inodes| && 0 < ino < MAX_INODES
    requires v.inodes == v0.inodes[ino := v.inodes[ino]] && v.inodes[ino].kind == v0.inodes[ino].kind == FREE
    requires forall s :: ValidSlot(s) ==> Ref(v, s) == Ref(v0, s)
    requires forall i, k :: 0 <= i < MAX_INODES && 0 <= k < MAX_BYTES ==> ByteAt(v, i, k) == ByteAt(v0, i, k)
    ensures (NothingPast(v0) ==> NothingPast(v)) && (ZeroTail(v0) ==> ZeroTail(v))
  {
    hide Ref, ByteAt;
    forall i, lb | 0 <= i < MAX_INODES && 0 <= lb < MAX_FILE_BLOCKS
      ensures Phys(v, i, lb) == Phys(v0, i, lb)
    {
    }
    forall i | IsFile(v, i)
      ensures IsFile(v0, i) && v.inodes[i] == v0.inodes[i]
    {
    }
  }
}
