/** get_file_data_block and allocate_file_data_block: reading and extending a file's block map. */
module BlockMap {
  import opened Base
  import opened Codec
  import opened FileMap
  import opened Ownership
  import opened Frames
  import opened Growth
  import opened Volume

  method ReadPointerTable(vol: DenyVolume, t: u32) returns (ok: bool, p: Pointers)
    requires vol.Valid()
    ensures vol.Valid() && vol.View() == old(vol.View())
    ensures ok ==> Used(vol.View(), t) && p == TableAt(vol.View(), t)
    ensures !vol.faulty && Used(vol.View(), t) ==> ok
  {
    p := NoPointers();
    if !vol.InUse(t) {
      return false, p;
    }
    var data;
    ok, data := vol.ReadBlock(t);
    if ok {
      p := DecodePointers(data);
    }
  }

  lemma RefInUse(v: Vol, own: Owners, s: Slot)
    requires Core(v, own, {}) && ValidSlot(s)
    ensures Ref(v, s) != INVALID ==> Used(v, Ref(v, s))
  {
    hide FreeSet, BitmapBlocks;
  }

  /** Finds the block behind a logical block; INVALID for a hole. */
  method GetFileDataBlock(vol: DenyVolume, ino: nat, lb: nat, ghost own: Owners) returns (st: Status, block: u32)
    requires vol.Valid() && Core(vol.View(), own, {}) && ino < MAX_INODES
    ensures vol.Valid() && vol.View() == old(vol.View())
    ensures st == EINVAL <==> lb >= MAX_FILE_BLOCKS
    ensures st == OK ==> block == Phys(vol.View(), ino, lb)
    ensures st == OK || st == EINVAL || st == EIO
    ensures !vol.faulty && lb < MAX_FILE_BLOCKS ==> st == OK
  {
    hide Core, DenyVolume.Valid, DenyVolume.View, DenyVolume.Node, DenyVolume.InUse, BitmapBlocks;
    block := INVALID;
    if lb >= MAX_FILE_BLOCKS {
      return EINVAL, block;
    }
    ghost var v := vol.View();
    var inode := vol.Node(ino);
    if lb < DIRECT_BLOCKS {
      block := inode.direct[lb];
    } else if lb < SINGLE_END {
      if inode.indirect == INVALID {
        return OK, INVALID;
      }
      RefInUse(v, own, Slot(ino, Ind));
      var ok, pointers := ReadPointerTable(vol, inode.indirect);
      if !ok {
        return EIO, block;
      }
      block := pointers[lb - DIRECT_BLOCKS];
    } else {
      if inode.double == INVALID {
        return OK, INVALID;
      }
      RefInUse(v, own, Slot(ino, Dbl));
      var ok, roots := ReadPointerTable(vol, inode.double);
      if !ok {
        return EIO, block;
      }
      if roots[Outer(lb)] == INVALID {
        return OK, INVALID;
      }
      RefInUse(v, own, Slot(ino, Child(Outer(lb))));
      var pointers;
      ok, pointers := ReadPointerTable(vol, roots[Outer(lb)]);
      if !ok {
        return EIO, block;
      }
      block := pointers[Inner(lb)];
    }
    RefInUse(v, own, Slot(ino, Data(lb)));
    if block != INVALID && !vol.InUse(block) {
      return EIO, block;
    }
    return OK, block;
  }

  /**
   * allocate_zeroed_data_block and allocate_pointer_table: takes the first free
   * block and writes its first contents.
   */
  method AllocateFilled(vol: DenyVolume, data: Sector, ghost v0: Vol, ghost r: set<nat>) returns (st: Status, b: u32)
    requires vol.Valid() && Reserved(v0, vol.View(), r)
    modifies vol.Footprint()
    ensures vol.Valid()
    ensures st == OK ==>
              b !in r && INVALID != b < vol.View().total == old(vol.View()).total && Reserved(v0, vol.View(), r + {b})
    ensures st == OK ==> vol.View().disk == PutBlock(old(vol.View()), b, data).disk
    ensures st != OK ==> Reserved(v0, vol.View(), r)
    ensures st == ENOSPC ==> v0.freeBlocks == |r|
    ensures st == OK || st == ENOSPC || st == EIO
    ensures vol.Reliable() ==> st != EIO
  {
    hide *;
    b := INVALID;
    ghost var v := vol.View();
    ReservedCounter(v0, v, r);
    var i := vol.AllocBlock();
    if i < 0 {
      return ENOSPC, b;
    }
    ReserveAlloc(v0, v, r, i);
    SetBitFields(v, i);
    ghost var w := vol.View();
    var written := vol.WriteBlock(i, data);
    if written != OK {
      ReserveFree(v0, w, r + {i}, i);
      assert r + {i} - {i} == r;
      ReservedCounter(v0, w, r + {i});
      vol.FreeBlock(i);
      return EIO, b;
    }
    ReserveWrite(v0, w, r + {i}, i, data);
    return OK, i;
  }

  lemma SetBitFields(v: Vol, b: nat)
    requires Shape(v) && InData(v, b) && v.freeBlocks > 0
    ensures SetBit(v, b).disk == v.disk && SetBit(v, b).total == v.total && b < v.total < INVALID
    ensures forall w, data :: w == PutBlock(SetBit(v, b), b, data) ==>
              w.disk == PutBlock(v, b, data).disk && w.total == v.total
  {
    MarkIs(v, b, true, v.freeBlocks - 1);
  }

  lemma ReservedCounter(v0: Vol, v: Vol, r: set<nat>)
    requires Reserved(v0, v, r)
    ensures v.freeBlocks == |FreeSet(v)| == v0.freeBlocks - |r|
    ensures FreeSet(v) == {} ==> v.freeBlocks == 0
  {
  }

  /** free_block on a block that this operation has just taken. */
  method FreeReserved(vol: DenyVolume, b: u32, ghost v0: Vol, ghost r: set<nat>)
    requires vol.Valid() && Reserved(v0, vol.View(), r) && b in r
    modifies vol.Footprint()
    ensures vol.Valid() && Reserved(v0, vol.View(), r - {b})
  {
    ReserveFree(v0, vol.View(), r, b);
    vol.FreeBlock(b);
  }

  // ----------------------------------- linking the blocks taken, by mapping level

  lemma LinkedCore(v: Vol, pend: set<nat>, v': Vol, own': Owners, pend': set<nat>, ino: nat, locs: set<Loc>)
    requires Shape(v) && ino < MAX_INODES && Linked(v, pend, v', own', pend', ino, locs)
    ensures Shape(v') && Core(v', own', pend') && SameBlocks(v, v')
            && v'.inodes[ino].blockCount == v.inodes[ino].blockCount
    ensures forall l :: ValidLoc(l) && l !in locs ==> Ref(v', Slot(ino, l)) == Ref(v, Slot(ino, l))
  {
    CoreShape(v', own', pend');
  }

  /** All tables on the way exist: only the data block is linked. */
  lemma LinkData(v: Vol, own: Owners, b: u32, ino: nat, lb: nat) returns (v': Vol, own': Owners)
    requires Core(v, own, {b}) && Shape(v) && ino < MAX_INODES && lb < MAX_FILE_BLOCKS
    requires HasHome(v, Slot(ino, Data(lb))) && Phys(v, ino, lb) == INVALID && Load(v.disk, b) == ZeroSector()
    ensures v' == SetRef(v, Slot(ino, Data(lb)), b) && own' == own[b := Slot(ino, Data(lb))]
    ensures Shape(v') && Linked(v, {b}, v', own', {}, ino, {Data(lb)}) && Phys(v', ino, lb) == b
  {
    hide Core, Linked, SetRef;
    v', own' := SetRef(v, Slot(ino, Data(lb)), b), own[b := Slot(ino, Data(lb))];
    LinkOne(v, own, {b}, ino, Data(lb), b);
    assert {b} - {b} == {};
    LinkedCore(v, {b}, v', own', {}, ino, {Data(lb)});
  }

  /** Linking an empty table, and the data block behind it. */
  lemma LinkTableAndData(v: Vol, own: Owners, t: u32, b: u32, ino: nat, l: Loc, lb: nat)
    returns (v1: Vol, v': Vol, own': Owners)
    requires Core(v, own, {b, t}) && Shape(v) && ino < MAX_INODES && lb < MAX_FILE_BLOCKS && b != t
    requires ValidLoc(l) && IsTable(l) && Home(Data(lb)) == Some(l) && HasHome(v, Slot(ino, l))
    requires Ref(v, Slot(ino, l)) == INVALID && Phys(v, ino, lb) == INVALID
    requires EmptyTable(v.disk, t) && Load(v.disk, b) == ZeroSector()
    ensures v1 == SetRef(v, Slot(ino, l), t) && Shape(v1) && HasHome(v1, Slot(ino, Data(lb)))
    ensures v' == SetRef(v1, Slot(ino, Data(lb)), b) && Shape(v')
    ensures Linked(v, {b, t}, v', own', {}, ino, {l, Data(lb)}) && Phys(v', ino, lb) == b
  {
    hide Core, Linked, SetRef;
    CoreShape(v, own, {b, t});
    PendingIsData(v, own, {b, t}, t);
    PendingIsData(v, own, {b, t}, b);
    v1 := SetRef(v, Slot(ino, l), t);
    var own1 := own[t := Slot(ino, l)];
    LinkOne(v, own, {b, t}, ino, l, t);
    assert {b, t} - {t} == {b};
    LinkedCore(v, {b, t}, v1, own1, {b}, ino, {l});
    SetRefDisk(v, own, {b, t}, Slot(ino, l), t, b);
    v', own' := LinkData(v1, own1, b, ino, lb);
    LinkedTransitive(v, {b, t}, v1, own1, {b}, v', own', {}, ino, {l}, {Data(lb)});
    assert {l} + {Data(lb)} == {l, Data(lb)};
  }

  /** Linking an empty double-indirect root, a child table under it, and the data block. */
  lemma LinkRootChildData(v: Vol, own: Owners, r: u32, c: u32, b: u32, ino: nat, lb: nat)
    returns (v1: Vol, v2: Vol, v': Vol, own': Owners)
    requires Core(v, own, {b, r, c}) && Shape(v) && ino < MAX_INODES && SINGLE_END <= lb < MAX_FILE_BLOCKS
    requires b != r && b != c && r != c
    requires Ref(v, Slot(ino, Dbl)) == INVALID
    requires EmptyTable(v.disk, r) && EmptyTable(v.disk, c) && Load(v.disk, b) == ZeroSector()
    ensures v1 == SetRef(v, Slot(ino, Dbl), r) && Shape(v1) && HasHome(v1, Slot(ino, Child(Outer(lb))))
    ensures v2 == SetRef(v1, Slot(ino, Child(Outer(lb))), c) && Shape(v2) && HasHome(v2, Slot(ino, Data(lb)))
    ensures v' == SetRef(v2, Slot(ino, Data(lb)), b) && Shape(v')
    ensures Linked(v, {b, r, c}, v', own', {}, ino, {Dbl, Child(Outer(lb)), Data(lb)}) && Phys(v', ino, lb) == b
  {
    hide Core, Linked;
    CoreShape(v, own, {b, r, c});
    PendingIsData(v, own, {b, r, c}, r);
    v1 := SetRef(v, Slot(ino, Dbl), r);
    var own1 := own[r := Slot(ino, Dbl)];
    LinkOne(v, own, {b, r, c}, ino, Dbl, r);
    assert {b, r, c} - {r} == {b, c};
    LinkedCore(v, {b, r, c}, v1, own1, {b, c}, ino, {Dbl});
    hide SetRef;
    v2, v', own' := LinkTableAndData(v1, own1, c, b, ino, Child(Outer(lb)), lb);
    LinkedTransitive(v, {b, r, c}, v1, own1, {b, c}, v', own', {}, ino, {Dbl}, {Child(Outer(lb)), Data(lb)});
    assert {Dbl} + {Child(Outer(lb)), Data(lb)} == {Dbl, Child(Outer(lb)), Data(lb)};
  }

  // -------------------------------------------------------------- allocation

  /** A file's block lb is a hole of v0, and in v the free block b was taken for it and zeroed. */
  ghost predicate Taken(v0: Vol, own: Owners, v: Vol, ino: nat, lb: nat, b: u32)
  {
    && Shape(v0) && Shape(v) && ino < MAX_INODES && lb < MAX_FILE_BLOCKS
    && Mapping(v0, own) && Phys(v0, ino, lb) == INVALID
    && Reserved(v0, v, {b}) && Load(v.disk, b) == ZeroSector()
  }

  /** In v, exactly the missing slots of block lb of v0 are linked, to blocks of r reserved in vp. */
  ghost predicate Supplied(v0: Vol, vp: Vol, r: set<nat>, v: Vol, own: Owners, ino: nat, lb: nat)
  {
    && Shape(v) && ino < MAX_INODES && lb < MAX_FILE_BLOCKS
    && Reserved(v0, vp, r) && |r| == |Missing(v0, ino, lb)|
    && Linked(vp, r, v, own, {}, ino, Missing(v0, ino, lb))
  }

  lemma TakenFacts(v0: Vol, own: Owners, v: Vol, ino: nat, lb: nat, b: u32)
    requires Taken(v0, own, v, ino, lb, b)
    ensures Core(v, own, {b}) && |v.disk| == v.total
    ensures forall s :: ValidSlot(s) ==> Ref(v, s) == Ref(v0, s)
    ensures forall s :: ValidSlot(s) && Ref(v, s) != INVALID ==> Used(v, Ref(v, s)) && Ref(v, s) != b
  {
    hide BitmapBlocks, Ref, FreeSet, NoHollow, Counted, Tracked, SameBlocks;
    ReservedCore(v0, v, own, {b});
  }

  /** The pointer table with x at entry i and nothing else. */
  function OneEntry(i: nat, x: u32): (p: Pointers)
    requires i < POINTERS_PER_BLOCK
  {
    NoPointers()[i := x]
  }

  lemma OneEntryIs(i: nat, x: u32)
    requires i < POINTERS_PER_BLOCK
    ensures OneEntry(i, x) == NoPointers()[i := x]
  {
  }

  lemma EmptyTableEncoded(d: seq<Sector>, t: u32)
    requires t < |d| && d[t] == EncodePointers(NoPointers())
    ensures EmptyTable(d, t) && DecodePointers(d[t]) == NoPointers()
  {
    PointersRoundTrip(NoPointers());
  }

  lemma SuppliedData(v0: Vol, own: Owners, v: Vol, ino: nat, lb: nat, b: u32) returns (v': Vol, own': Owners)
    requires Taken(v0, own, v, ino, lb, b) && HasHome(v, Slot(ino, Data(lb)))
    ensures v' == SetRef(v, Slot(ino, Data(lb)), b) && Phys(v', ino, lb) == b && Supplied(v0, v, {b}, v', own', ino, lb)
  {
    hide Core, SetRef, Linked, Reserved, Mapping, Get;
    TakenFacts(v0, own, v, ino, lb, b);
    v', own' := LinkData(v, own, b, ino, lb);
    NeedHomes(v0, ino, lb);
    assert Missing(v0, ino, lb) == {Data(lb)};
  }

  /** When the table that holds a data block's number exists, so do all tables above it. */
  lemma NeedHomes(v: Vol, ino: nat, lb: nat)
    requires Shape(v) && ino < MAX_INODES && lb < MAX_FILE_BLOCKS
    ensures Home(Data(lb)).Some? && Ref(v, Slot(ino, Home(Data(lb)).value)) != INVALID ==>
              forall l :: l in Need(lb) && l != Data(lb) ==> Ref(v, Slot(ino, l)) != INVALID
  {
  }

  /** The single-indirect table exists: where it is, and what linking through it does. */
  lemma OldSingle(v0: Vol, own: Owners, v: Vol, ino: nat, lb: nat, b: u32, t: u32) returns (v': Vol, own': Owners)
    requires Taken(v0, own, v, ino, lb, b) && DIRECT_BLOCKS <= lb < SINGLE_END
    requires v.inodes[ino].indirect == t != INVALID
    ensures Used(v, t) && t < v.total
    ensures v' == PutBlock(v, t, EncodePointers(TableAt(v, t)[lb - DIRECT_BLOCKS := b]))
    ensures Phys(v', ino, lb) == b && Supplied(v0, v, {b}, v', own', ino, lb)
  {
    hide Core, Supplied, Taken, BitmapBlocks;
    assert Shape(v) && ino < MAX_INODES by { TakenShape(v0, own, v, ino, lb, b); }
    TakenFacts(v0, own, v, ino, lb, b);
    assert Ref(v, Slot(ino, Ind)) == t;
    v', own' := SuppliedData(v0, own, v, ino, lb, b);
  }

  lemma TakenShape(v0: Vol, own: Owners, v: Vol, ino: nat, lb: nat, b: u32)
    requires Taken(v0, own, v, ino, lb, b)
    ensures Shape(v0) && Shape(v) && |v.inodes| == MAX_INODES && |v.disk| == v.total <= INT32_LIMIT
    ensures ino < MAX_INODES && lb < MAX_FILE_BLOCKS && Mapping(v0, own) && Core(v0, own, {})
    ensures Phys(v0, ino, lb) == INVALID && Load(v.disk, b) == ZeroSector() && b < v.total && b != INVALID
    ensures Reserved(v0, v, {b}) && v.inodes == v0.inodes && v0.freeBlocks >= 1 && v.freeBlocks == v0.freeBlocks - 1
  {
  }

  lemma NewSingleMissing(v0: Vol, own: Owners, v: Vol, ino: nat, lb: nat, b: u32)
    requires Taken(v0, own, v, ino, lb, b) && DIRECT_BLOCKS <= lb < SINGLE_END && v.inodes[ino].indirect == INVALID
    ensures Missing(v0, ino, lb) == {Ind, Data(lb)} && |Missing(v0, ino, lb)| == 2
    ensures Ref(v0, Slot(ino, Ind)) == INVALID
  {
    hide Core, Reserved, Mapping, BitmapBlocks;
    TakenFacts(v0, own, v, ino, lb, b);
    assert Ref(v, Slot(ino, Ind)) == INVALID;
  }

  /** A new single-indirect table and the data block in it supply everything that was missing. */
  lemma NewSingle(v0: Vol, own: Owners, v: Vol, vp: Vol, ino: nat, lb: nat, b: u32, t: u32)
    returns (v': Vol, own': Owners)
    requires Taken(v0, own, v, ino, lb, b) && DIRECT_BLOCKS <= lb < SINGLE_END && v.inodes[ino].indirect == INVALID
    requires Shape(vp) && Reserved(v0, vp, {b, t}) && t != b && t < v.total
    requires vp.disk == PutBlock(v, t, EncodePointers(NoPointers())).disk
    ensures v' == WithInode(PutBlock(vp, t, EncodePointers(OneEntry(lb - DIRECT_BLOCKS, b))), ino,
                            vp.inodes[ino].(indirect := t)) && vp.inodes == v.inodes
    ensures Phys(v', ino, lb) == b && Supplied(v0, vp, {b, t}, v', own', ino, lb)
  {
    hide Core, Linked, Reserved, Taken, Mapping, BitmapBlocks, Need, Missing, SetRef, Get;
    TakenShape(v0, own, v, ino, lb, b);
    NewSingleMissing(v0, own, v, ino, lb, b);
    ReservedRefs(v0, own, vp, {b, t});
    EmptyTableEncoded(vp.disk, t);
    var v1;
    v1, v', own' := LinkTableAndData(vp, own, t, b, ino, Ind, lb);
    SetSingle(vp, ino, lb, b, t);
  }

  lemma SetSingle(v: Vol, ino: nat, lb: nat, b: u32, t: u32)
    requires Shape(v) && ino < MAX_INODES && DIRECT_BLOCKS <= lb < SINGLE_END
    requires t < v.total && v.disk[t] == EncodePointers(NoPointers())
    ensures HasHome(SetRef(v, Slot(ino, Ind), t), Slot(ino, Data(lb)))
    ensures SetRef(SetRef(v, Slot(ino, Ind), t), Slot(ino, Data(lb)), b) ==
            WithInode(PutBlock(v, t, EncodePointers(OneEntry(lb - DIRECT_BLOCKS, b))), ino,
                      v.inodes[ino].(indirect := t))
  {
    PointersRoundTrip(NoPointers());
  }

  lemma ReservedRefs(v0: Vol, own: Owners, vp: Vol, r: set<nat>)
    requires Mapping(v0, own) && Reserved(v0, vp, r)
    ensures Core(vp, own, r) && vp.inodes == v0.inodes
    ensures forall s :: ValidSlot(s) ==> Ref(vp, s) == Ref(v0, s)
  {
    ReservedCore(v0, vp, own, r);
  }

  /** The blocks taken so far: b, and those of t1 and t2 that are block numbers. */
  ghost function TakenSet(b: u32, t1: u32, t2: u32): (r: set<nat>)
  {
    {b} + (if t1 == INVALID then {} else {t1}) + (if t2 == INVALID then {} else {t2})
  }

  ghost predicate Distinct(b: u32, t1: u32, t2: u32)
  {
    b != INVALID && b != t1 && b != t2 && (t1 != t2 || t1 == INVALID)
  }

  lemma TakenBlocks(b: u32, t1: u32, t2: u32)
    requires b != INVALID
    ensures TakenSet(b, INVALID, INVALID) == {b} && Distinct(b, INVALID, INVALID)
    ensures b != t1 && t1 != INVALID ==> TakenSet(b, t1, INVALID) == {b, t1} == {b} + {t1} && Distinct(b, t1, INVALID)
    ensures b != t1 && t1 != INVALID && b != t2 && t2 != INVALID && t1 != t2 ==>
              TakenSet(b, t1, t2) == {b, t1, t2} == {b, t1} + {t2} && Distinct(b, t1, t2)
  {
  }

  /** Gives back every block taken so far. */
  method GiveBack(vol: DenyVolume, b: u32, t1: u32, t2: u32, ghost v0: Vol, ghost r: set<nat>)
    requires vol.Valid() && Reserved(v0, vol.View(), r)
    requires r == TakenSet(b, t1, t2) && Distinct(b, t1, t2)
    modifies vol.Footprint()
    ensures vol.Valid() && Reserved(v0, vol.View(), {})
  {
    hide Reserved, BitmapBlocks, DenyVolume.Valid, DenyVolume.View;
    FreeReserved(vol, b, v0, r);
    ghost var left := r - {b};
    if t1 != INVALID {
      FreeReserved(vol, t1, v0, left);
      left := left - {t1};
    }
    if t2 != INVALID {
      FreeReserved(vol, t2, v0, left);
      left := left - {t2};
    }
    assert left == {};
  }

  /** allocate_pointer_table, giving back what was taken before when that fails. */
  method TakeTable(vol: DenyVolume, b: u32, root: u32, ghost v0: Vol, ghost r: set<nat>) returns (st: Status, t: u32)
    requires vol.Valid() && Reserved(v0, vol.View(), r) && r == TakenSet(b, root, INVALID) && Distinct(b, root, INVALID)
    modifies vol.Footprint()
    ensures vol.Valid()
    ensures st == OK ==>
              t !in r && INVALID != t < vol.View().total == old(vol.View()).total && Reserved(v0, vol.View(), r + {t})
    ensures st == OK ==> vol.View().disk == PutBlock(old(vol.View()), t, EncodePointers(NoPointers())).disk
    ensures st != OK ==> Reserved(v0, vol.View(), {})
    ensures st == ENOSPC ==> v0.freeBlocks == |r|
    ensures st == OK || st == ENOSPC || st == EIO
    ensures vol.Reliable() ==> st != EIO
  {
    hide Reserved, BitmapBlocks, DenyVolume.Valid, DenyVolume.View;
    st, t := AllocateFilled(vol, EncodePointers(NoPointers()), v0, r);
    if st != OK {
      GiveBack(vol, b, root, INVALID, v0, r);
    }
  }

  /** read_pointer_table, giving back what was taken before when that fails. */
  method ReadTable(vol: DenyVolume, t: u32, b: u32, root: u32, ghost v0: Vol, ghost r: set<nat>)
    returns (st: Status, p: Pointers)
    requires vol.Valid() && Reserved(v0, vol.View(), r) && r == TakenSet(b, root, INVALID) && Distinct(b, root, INVALID)
    modifies vol.Footprint()
    ensures vol.Valid()
    ensures st == OK ==> vol.View() == old(vol.View()) && p == TableAt(vol.View(), t)
    ensures st != OK ==> st == EIO && Reserved(v0, vol.View(), {})
    ensures !vol.faulty && Used(old(vol.View()), t) ==> st == OK
  {
    hide Reserved, BitmapBlocks, DenyVolume.Valid, DenyVolume.View;
    var ok;
    ok, p := ReadPointerTable(vol, t);
    st := OK;
    if !ok {
      st := EIO;
      GiveBack(vol, b, root, INVALID, v0, r);
    }
  }

  /** Writes a table with one entry changed, giving back what was taken when that fails. */
  method StorePointer(vol: DenyVolume, table: u32, pointers: Pointers, i: nat, x: u32,
                      b: u32, t1: u32, t2: u32, ghost v0: Vol, ghost r: set<nat>)
    returns (st: Status)
    requires vol.Valid() && i < POINTERS_PER_BLOCK && table < vol.View().total
    requires Reserved(v0, vol.View(), r) && r == TakenSet(b, t1, t2) && Distinct(b, t1, t2)
    modifies vol.Footprint()
    ensures vol.Valid()
    ensures st == OK ==> vol.View() == PutBlock(old(vol.View()), table, EncodePointers(pointers[i := x]))
    ensures st != OK ==> st == EIO && Reserved(v0, vol.View(), {})
    ensures vol.Reliable() ==> st == OK
  {
    hide Reserved, BitmapBlocks, DenyVolume.Valid, DenyVolume.View;
    st := vol.WriteBlock(table, EncodePointers(pointers[i := x]));
    if st != OK {
      st := EIO;
      GiveBack(vol, b, t1, t2, v0, r);
    }
  }

  lemma SingleIndex(lb: nat)
    requires DIRECT_BLOCKS <= lb < SINGLE_END
    ensures 0 <= lb - DIRECT_BLOCKS < POINTERS_PER_BLOCK
  {
  }

  /** Writes a new table that maps entry i to x, and then links the table from the inode. */
  method StoreAndLink(vol: DenyVolume, ino: nat, n: Inode, table: u32, i: nat, x: u32,
                      b: u32, t1: u32, t2: u32, ghost v0: Vol, ghost r: set<nat>)
    returns (st: Status)
    requires vol.Valid() && i < POINTERS_PER_BLOCK && table < vol.View().total && ino < MAX_INODES
    requires Reserved(v0, vol.View(), r) && r == TakenSet(b, t1, t2) && Distinct(b, t1, t2)
    modifies vol.Footprint()
    ensures vol.Valid()
    ensures st == OK ==>
              vol.View() == WithInode(PutBlock(old(vol.View()), table, EncodePointers(OneEntry(i, x))), ino, n)
    ensures st != OK ==> st == EIO && Reserved(v0, vol.View(), {})
    ensures vol.Reliable() ==> st == OK
  {
    hide *;
    OneEntryIs(i, x);
    st := StorePointer(vol, table, NoPointers(), i, x, b, t1, t2, v0, r);
    if st == OK {
      vol.PutInode(ino, n);
    }
  }

  /** Links block b, just taken, through a new single-indirect table. */
  method LinkThroughNewSingle(vol: DenyVolume, ino: nat, lb: nat, b: u32, ghost v0: Vol, ghost own: Owners)
    returns (st: Status, ghost vp: Vol, ghost r: set<nat>, ghost own': Owners)
    requires vol.Valid() && DIRECT_BLOCKS <= lb < SINGLE_END && Taken(v0, own, vol.View(), ino, lb, b)
    requires vol.View().inodes[ino].indirect == INVALID
    modifies vol.Footprint()
    ensures vol.Valid()
    ensures st == OK ==> Supplied(v0, vp, r, vol.View(), own', ino, lb) && Phys(vol.View(), ino, lb) == b
    ensures st != OK ==> Reserved(v0, vol.View(), {})
    ensures st == ENOSPC ==> v0.freeBlocks < |Missing(v0, ino, lb)|
    ensures st == OK || st == ENOSPC || st == EIO
    ensures vol.Reliable() ==> st != EIO
  {
    hide *;
    SingleIndex(lb);
    ghost var v := vol.View();
    TakenShape(v0, own, v, ino, lb, b);
    NewSingleMissing(v0, own, v, ino, lb, b);
    TakenBlocks(b, INVALID, INVALID);
    var inode := vol.Node(ino);
    var table;
    vp, r, own' := v, {b}, own;
    st, table := TakeTable(vol, b, INVALID, v0, r);
    if st != OK {
      return;
    }
    ghost var v';
    vp, r := vol.View(), {b, table};
    TakenBlocks(b, table, INVALID);
    v', own' := NewSingle(v0, own, v, vp, ino, lb, b, table);
    st := StoreAndLink(vol, ino, inode.(indirect := table), table, lb - DIRECT_BLOCKS, b, b, table, INVALID, v0, r);
  }

  /** Links block b, just taken, through the single-indirect table that exists. */
  method LinkThroughOldSingle(vol: DenyVolume, ino: nat, lb: nat, b: u32, ghost v0: Vol, ghost own: Owners)
    returns (st: Status, ghost vp: Vol, ghost r: set<nat>, ghost own': Owners)
    requires vol.Valid() && DIRECT_BLOCKS <= lb < SINGLE_END && Taken(v0, own, vol.View(), ino, lb, b)
    requires vol.View().inodes[ino].indirect != INVALID
    modifies vol.Footprint()
    ensures vol.Valid()
    ensures st == OK ==> Supplied(v0, vp, r, vol.View(), own', ino, lb) && Phys(vol.View(), ino, lb) == b
    ensures st != OK ==> st == EIO && Reserved(v0, vol.View(), {})
    ensures vol.Reliable() ==> st == OK
  {
    hide *;
    SingleIndex(lb);
    vp, r := vol.View(), {b};
    TakenShape(v0, own, vp, ino, lb, b);
    TakenBlocks(b, INVALID, INVALID);
    var table := vol.Node(ino).indirect;
    ghost var v';
    v', own' := OldSingle(v0, own, vp, ino, lb, b, table);
    var pointers;
    st, pointers := ReadTable(vol, table, b, INVALID, v0, r);
    if st != OK {
      return;
    }
    st := StorePointer(vol, table, pointers, lb - DIRECT_BLOCKS, b, b, INVALID, INVALID, v0, r);
  }

  // ------------------------------------------------ the double-indirect level

  lemma DoubleIndex(lb: nat)
    requires SINGLE_END <= lb < MAX_FILE_BLOCKS
    ensures Outer(lb) < POINTERS_PER_BLOCK && Inner(lb) < POINTERS_PER_BLOCK
  {
  }

  lemma OldRoot(v0: Vol, own: Owners, v: Vol, ino: nat, lb: nat, b: u32, root: u32)
    requires Shape(v) && ino < MAX_INODES && SINGLE_END <= lb < MAX_FILE_BLOCKS
             && v.inodes[ino].double == root != INVALID
    requires Taken(v0, own, v, ino, lb, b)
    ensures Used(v, root) && root < v.total && root != b
    ensures Ref(v, Slot(ino, Child(Outer(lb)))) == TableAt(v, root)[Outer(lb)]
  {
    hide Core, Supplied, Taken, BitmapBlocks;
    TakenShape(v0, own, v, ino, lb, b);
    TakenFacts(v0, own, v, ino, lb, b);
    assert Ref(v, Slot(ino, Dbl)) == root;
  }

  /** Root and child exist: only the child table is rewritten. */
  lemma OldChild(v0: Vol, own: Owners, v: Vol, ino: nat, lb: nat, b: u32, child: u32) returns (v': Vol, own': Owners)
    requires Shape(v) && ino < MAX_INODES && SINGLE_END <= lb < MAX_FILE_BLOCKS
    requires Ref(v, Slot(ino, Child(Outer(lb)))) == child != INVALID
    requires Taken(v0, own, v, ino, lb, b)
    ensures Used(v, child) && child < v.total
    ensures v' == PutBlock(v, child, EncodePointers(TableAt(v, child)[Inner(lb) := b]))
    ensures Phys(v', ino, lb) == b && Supplied(v0, v, {b}, v', own', ino, lb)
  {
    hide Core, Supplied, Taken, BitmapBlocks;
    TakenShape(v0, own, v, ino, lb, b);
    TakenFacts(v0, own, v, ino, lb, b);
    v', own' := SuppliedData(v0, own, v, ino, lb, b);
  }

  lemma NewChildMissing(v0: Vol, own: Owners, v: Vol, ino: nat, lb: nat, b: u32)
    requires Taken(v0, own, v, ino, lb, b) && SINGLE_END <= lb && v.inodes[ino].double != INVALID
    requires Ref(v, Slot(ino, Child(Outer(lb)))) == INVALID
    ensures Missing(v0, ino, lb) == {Child(Outer(lb)), Data(lb)} && |Missing(v0, ino, lb)| == 2
  {
    hide Core, Reserved, Mapping, BitmapBlocks;
    TakenFacts(v0, own, v, ino, lb, b);
    assert Ref(v, Slot(ino, Dbl)) != INVALID;
    assert Missing(v0, ino, lb) == {Child(Outer(lb)), Data(lb)};
  }

  lemma NewRootMissing(v0: Vol, own: Owners, v: Vol, ino: nat, lb: nat, b: u32)
    requires Taken(v0, own, v, ino, lb, b) && SINGLE_END <= lb && v.inodes[ino].double == INVALID
    ensures Missing(v0, ino, lb) == {Dbl, Child(Outer(lb)), Data(lb)} && |Missing(v0, ino, lb)| == 3
  {
    hide Core, Reserved, Mapping, BitmapBlocks;
    TakenShape(v0, own, v, ino, lb, b);
    TakenFacts(v0, own, v, ino, lb, b);
    assert Ref(v, Slot(ino, Dbl)) == INVALID && Ref(v, Slot(ino, Child(Outer(lb)))) == INVALID;
    assert |{Dbl, Child(Outer(lb)), Data(lb)}| == 3;
    assert Missing(v0, ino, lb) == {Dbl, Child(Outer(lb)), Data(lb)};
  }

  /** A new child table under the root that exists, and the data block in it. */
  lemma NewChild(v0: Vol, own: Owners, v: Vol, vp: Vol, ino: nat, lb: nat, b: u32, root: u32, c: u32)
    returns (v': Vol, own': Owners)
    requires Shape(v) && ino < MAX_INODES && SINGLE_END <= lb < MAX_FILE_BLOCKS
             && v.inodes[ino].double == root != INVALID
    requires Ref(v, Slot(ino, Child(Outer(lb)))) == INVALID && c != b && c < v.total
    requires Taken(v0, own, v, ino, lb, b) && Reserved(v0, vp, {b, c})
    requires vp.disk == PutBlock(v, c, EncodePointers(NoPointers())).disk
    ensures v' == PutBlock(PutBlock(vp, c, EncodePointers(OneEntry(Inner(lb), b))),
                           root, EncodePointers(TableAt(v, root)[Outer(lb) := c]))
    ensures Phys(v', ino, lb) == b && Supplied(v0, vp, {b, c}, v', own', ino, lb)
  {
    hide Core, Linked, Reserved, Taken, Mapping, BitmapBlocks, Need, Missing, SetRef, Get;
    TakenShape(v0, own, v, ino, lb, b);
    OldRoot(v0, own, v, ino, lb, b, root);
    NewChildMissing(v0, own, v, ino, lb, b);
    ReservedRefs(v0, own, vp, {b, c});
    RefsOfTaken(v0, own, v, ino, lb, b);
    EmptyTableEncoded(vp.disk, c);
    PendingNotOwned(vp, own, {b, c}, Slot(ino, Dbl), c);
    DoubleRefs(vp, ino, root);
    var v1;
    v1, v', own' := LinkTableAndData(vp, own, c, b, ino, Child(Outer(lb)), lb);
    SetChild(vp, ino, lb, b, root, c);
  }

  lemma DoubleRefs(v: Vol, ino: nat, root: u32)
    requires Shape(v) && ino < MAX_INODES && v.inodes[ino].double == root
    ensures Ref(v, Slot(ino, Dbl)) == root
  {
  }

  lemma RefsOfTaken(v0: Vol, own: Owners, v: Vol, ino: nat, lb: nat, b: u32)
    requires Taken(v0, own, v, ino, lb, b)
    ensures forall s :: ValidSlot(s) ==> Ref(v, s) == Ref(v0, s)
  {
    hide Core, Ref, Taken;
    TakenShape(v0, own, v, ino, lb, b);
    TakenFacts(v0, own, v, ino, lb, b);
  }

  lemma SetChild(v: Vol, ino: nat, lb: nat, b: u32, root: u32, c: u32)
    requires Shape(v) && ino < MAX_INODES && SINGLE_END <= lb < MAX_FILE_BLOCKS && v.inodes[ino].double == root != c
    requires root < v.total && c < v.total && v.disk[c] == EncodePointers(NoPointers())
    ensures HasHome(SetRef(v, Slot(ino, Child(Outer(lb))), c), Slot(ino, Data(lb)))
    ensures SetRef(SetRef(v, Slot(ino, Child(Outer(lb))), c), Slot(ino, Data(lb)), b) ==
            PutBlock(PutBlock(v, c, EncodePointers(OneEntry(Inner(lb), b))),
                     root, EncodePointers(TableAt(v, root)[Outer(lb) := c]))
  {
    hide BitmapBlocks, EncodePointers, DecodePointers;
    PointersRoundTrip(NoPointers());
    PutPtrAt(v.disk, root, Outer(lb), c, root, Outer(lb));
    var v1 := SetRef(v, Slot(ino, Child(Outer(lb))), c);
    assert v1.disk == v.disk[root := EncodePointers(TableAt(v, root)[Outer(lb) := c])];
    assert Ref(v1, Slot(ino, Child(Outer(lb)))) == c;
    assert v1.disk[c] == v.disk[c];
    var v2 := SetRef(v1, Slot(ino, Data(lb)), b);
    assert v2.disk == v1.disk[c := EncodePointers(OneEntry(Inner(lb), b))];
    assert v2.disk == v.disk[c := EncodePointers(OneEntry(Inner(lb), b))]
                            [root := EncodePointers(TableAt(v, root)[Outer(lb) := c])];
  }

  /** A new root, a new child table and the data block. */
  lemma NewRoot(v0: Vol, own: Owners, v: Vol, vp: Vol, ino: nat, lb: nat, b: u32, root: u32, c: u32)
    returns (v': Vol, own': Owners)
    requires Taken(v0, own, v, ino, lb, b) && SINGLE_END <= lb && v.inodes[ino].double == INVALID
    requires Reserved(v0, vp, {b, root, c}) && c != b && root != b && root != c && c < v.total && root < v.total
    requires vp.disk == PutBlock(PutBlock(v, root, EncodePointers(NoPointers())), c, EncodePointers(NoPointers())).disk
    ensures v' == WithInode(PutBlock(PutBlock(vp, c, EncodePointers(OneEntry(Inner(lb), b))),
                                     root, EncodePointers(OneEntry(Outer(lb), c))),
                            ino, vp.inodes[ino].(double := root))
    ensures vp.inodes == v.inodes
    ensures Phys(v', ino, lb) == b && Supplied(v0, vp, {b, root, c}, v', own', ino, lb)
  {
    hide Core, Linked, Reserved, Taken, Mapping, BitmapBlocks, Need, Missing, SetRef, Get;
    TakenShape(v0, own, v, ino, lb, b);
    NewRootMissing(v0, own, v, ino, lb, b);
    ReservedRefs(v0, own, vp, {b, root, c});
    EmptyTableEncoded(vp.disk, c);
    EmptyTableEncoded(vp.disk, root);
    DoubleRefs(vp, ino, INVALID);
    assert |{b, root, c}| == 3;
    var v1, v2;
    v1, v2, v', own' := LinkRootChildData(vp, own, root, c, b, ino, lb);
    SetRootChild(vp, ino, lb, b, root, c);
  }

  lemma SetRootChild(v: Vol, ino: nat, lb: nat, b: u32, root: u32, c: u32)
    requires Shape(v) && ino < MAX_INODES && SINGLE_END <= lb < MAX_FILE_BLOCKS && root != c
    requires root < v.total && c < v.total
    requires v.disk[c] == EncodePointers(NoPointers()) && v.disk[root] == EncodePointers(NoPointers())
    ensures var v1 := SetRef(v, Slot(ino, Dbl), root);
            && HasHome(v1, Slot(ino, Child(Outer(lb))))
            && HasHome(SetRef(v1, Slot(ino, Child(Outer(lb))), c), Slot(ino, Data(lb)))
            && SetRef(SetRef(v1, Slot(ino, Child(Outer(lb))), c), Slot(ino, Data(lb)), b) ==
               WithInode(PutBlock(PutBlock(v, c, EncodePointers(OneEntry(Inner(lb), b))),
                                  root, EncodePointers(OneEntry(Outer(lb), c))),
                         ino, v.inodes[ino].(double := root))
  {
    hide BitmapBlocks, EncodePointers, DecodePointers;
    PointersRoundTrip(NoPointers());
    var v1 := SetRef(v, Slot(ino, Dbl), root);
    SetChild(v1, ino, lb, b, root, c);
  }

  method LinkThroughNewRoot(vol: DenyVolume, ino: nat, lb: nat, b: u32, ghost v0: Vol, ghost own: Owners)
    returns (st: Status, ghost vp: Vol, ghost r: set<nat>, ghost own': Owners)
    requires vol.Valid() && SINGLE_END <= lb && Taken(v0, own, vol.View(), ino, lb, b)
    requires vol.View().inodes[ino].double == INVALID
    modifies vol.Footprint()
    ensures vol.Valid()
    ensures st == OK ==> Supplied(v0, vp, r, vol.View(), own', ino, lb) && Phys(vol.View(), ino, lb) == b
    ensures st != OK ==> Reserved(v0, vol.View(), {})
    ensures st == ENOSPC ==> v0.freeBlocks < |Missing(v0, ino, lb)|
    ensures st == OK || st == ENOSPC || st == EIO
    ensures vol.Reliable() ==> st != EIO
  {
    hide *;
    ghost var v := vol.View();
    TakenShape(v0, own, v, ino, lb, b);
    DoubleIndex(lb);
    NewRootMissing(v0, own, v, ino, lb, b);
    TakenBlocks(b, INVALID, INVALID);
    var inode := vol.Node(ino);
    var root, child;
    vp, r, own' := v, {b}, own;
    st, root, child := TakeRootAndChild(vol, b, v0);
    if st != OK {
      return;
    }
    ghost var v';
    vp, r := vol.View(), {b, root, child};
    v', own' := NewRoot(v0, own, v, vp, ino, lb, b, root, child);
    st := StoreRootAndChild(vol, ino, lb, inode, root, child, b, v0);
  }

  /** The two tables of a new double-indirect tree. */
  method TakeRootAndChild(vol: DenyVolume, b: u32, ghost v0: Vol) returns (st: Status, root: u32, child: u32)
    requires vol.Valid() && b != INVALID && Reserved(v0, vol.View(), {b})
    modifies vol.Footprint()
    ensures vol.Valid()
    ensures st == OK ==> Reserved(v0, vol.View(), {b, root, child}) && b != root && b != child && root != child
    ensures st == OK ==> root < vol.View().total == old(vol.View()).total && child < vol.View().total
    ensures st == OK ==> vol.View().disk == PutBlock(PutBlock(old(vol.View()), root, EncodePointers(NoPointers())),
                                                     child, EncodePointers(NoPointers())).disk
    ensures st != OK ==> Reserved(v0, vol.View(), {})
    ensures st == ENOSPC ==> v0.freeBlocks <= 2
    ensures st == OK || st == ENOSPC || st == EIO
    ensures vol.Reliable() ==> st != EIO
  {
    hide *;
    ghost var v := vol.View();
    TakenBlocks(b, INVALID, INVALID);
    child := INVALID;
    st, root := TakeTable(vol, b, INVALID, v0, {b});
    if st != OK {
      return;
    }
    ghost var w := vol.View();
    TakenBlocks(b, root, INVALID);
    st, child := TakeTable(vol, b, root, v0, {b, root});
    if st != OK {
      return;
    }
    assert {b, root} + {child} == {b, root, child};
    PutDisk(v, w, root, EncodePointers(NoPointers()), child, EncodePointers(NoPointers()));
  }

  lemma PutDisk(v: Vol, w: Vol, b: nat, data: Sector, b': nat, data': Sector)
    requires w.disk == PutBlock(v, b, data).disk
    ensures PutBlock(w, b', data').disk == PutBlock(PutBlock(v, b, data), b', data').disk
  {
  }

  /** Writes the child table, then the root table, then links the root from the inode. */
  method StoreRootAndChild(vol: DenyVolume, ino: nat, lb: nat, inode: Inode, root: u32, child: u32, b: u32,
                           ghost v0: Vol)
    returns (st: Status)
    requires vol.Valid() && ino < MAX_INODES && SINGLE_END <= lb < MAX_FILE_BLOCKS
    requires root < vol.View().total && child < vol.View().total && b != INVALID && b != root && b != child
             && root != child
    requires Reserved(v0, vol.View(), {b, root, child})
    modifies vol.Footprint()
    ensures vol.Valid()
    ensures st == OK ==>
              vol.View() == WithInode(PutBlock(PutBlock(old(vol.View()), child, EncodePointers(OneEntry(Inner(lb), b))),
                                               root, EncodePointers(OneEntry(Outer(lb), child))),
                                      ino, inode.(double := root))
    ensures st != OK ==> st == EIO && Reserved(v0, vol.View(), {})
    ensures vol.Reliable() ==> st == OK
  {
    hide *;
    DoubleIndex(lb);
    NotInvalid(v0, vol.View(), {b, root, child}, root);
    NotInvalid(v0, vol.View(), {b, root, child}, child);
    TakenBlocks(b, root, child);
    ghost var r := {b, root, child};
    OneEntryIs(Inner(lb), b);
    st := StorePointer(vol, child, NoPointers(), Inner(lb), b, b, root, child, v0, r);
    if st != OK {
      return;
    }
    NotInvalid(v0, old(vol.View()), r, child);
    ReserveWrite(v0, old(vol.View()), r, child, EncodePointers(OneEntry(Inner(lb), b)));
    PutBlockTotal(old(vol.View()), child, EncodePointers(OneEntry(Inner(lb), b)));
    st := StoreAndLink(vol, ino, inode.(double := root), root, Outer(lb), child, b, root, child, v0, r);
  }

  lemma NotInvalid(v0: Vol, v: Vol, r: set<nat>, b: nat)
    requires Reserved(v0, v, r) && b in r
    ensures b != INVALID
  {
  }

  lemma PutBlockTotal(v: Vol, b: nat, data: Sector)
    ensures PutBlock(v, b, data).total == v.total && PutBlock(v, b, data).inodes == v.inodes
  {
  }

  /** Links block b, just taken, through a new child table of the double-indirect root. */
  method LinkThroughNewChild(vol: DenyVolume, ino: nat, lb: nat, b: u32, root: u32, roots: Pointers, ghost v0: Vol,
                             ghost own: Owners)
    returns (st: Status, ghost vp: Vol, ghost r: set<nat>, ghost own': Owners)
    requires vol.Valid() && SINGLE_END <= lb && Taken(v0, own, vol.View(), ino, lb, b)
    requires vol.View().inodes[ino].double == root != INVALID
    requires roots == TableAt(vol.View(), root) && Ref(vol.View(), Slot(ino, Child(Outer(lb)))) == INVALID
    modifies vol.Footprint()
    ensures vol.Valid()
    ensures st == OK ==> Supplied(v0, vp, r, vol.View(), own', ino, lb) && Phys(vol.View(), ino, lb) == b
    ensures st != OK ==> Reserved(v0, vol.View(), {})
    ensures st == ENOSPC ==> v0.freeBlocks < |Missing(v0, ino, lb)|
    ensures st == OK || st == ENOSPC || st == EIO
    ensures vol.Reliable() ==> st != EIO
  {
    hide *;
    ghost var v := vol.View();
    TakenShape(v0, own, v, ino, lb, b);
    DoubleIndex(lb);
    OldRoot(v0, own, v, ino, lb, b, root);
    NewChildMissing(v0, own, v, ino, lb, b);
    TakenBlocks(b, INVALID, INVALID);
    vp, r, own' := v, {b}, own;
    var child;
    st, child := TakeTable(vol, b, INVALID, v0, r);
    if st != OK {
      return;
    }
    ghost var v';
    vp, r := vol.View(), {b, child};
    TakenBlocks(b, child, INVALID);
    TakenElsewhere(v0, own, v, ino, lb, b, root, vp, child);
    v', own' := NewChild(v0, own, v, vp, ino, lb, b, root, child);
    st := StoreChild(vol, lb, root, child, roots, b, v0);
  }

  /** A newly taken block is not the root, whose contents are as before. */
  lemma TakenElsewhere(v0: Vol, own: Owners, v: Vol, ino: nat, lb: nat, b: u32, root: u32, vp: Vol, c: u32)
    requires Taken(v0, own, v, ino, lb, b) && Used(v, root) && root != b && c != b && root < v.total
    requires Reserved(v0, vp, {b, c}) && vp.disk == PutBlock(v, c, EncodePointers(NoPointers())).disk
    ensures root != c && TableAt(vp, root) == TableAt(v, root) && vp.total == v.total
  {
    hide Core, Mapping, BitmapBlocks, FreeSet, SameBlocks;
  }

  /** Writes a new child table, then the root table with the child in it. */
  method StoreChild(vol: DenyVolume, lb: nat, root: u32, child: u32, roots: Pointers, b: u32, ghost v0: Vol)
    returns (st: Status)
    requires vol.Valid() && SINGLE_END <= lb < MAX_FILE_BLOCKS
    requires root < vol.View().total && child < vol.View().total && b != INVALID && b != child
    requires Reserved(v0, vol.View(), {b, child})
    modifies vol.Footprint()
    ensures vol.Valid()
    ensures st == OK ==>
              vol.View() == PutBlock(PutBlock(old(vol.View()), child, EncodePointers(OneEntry(Inner(lb), b))),
                                     root, EncodePointers(roots[Outer(lb) := child]))
    ensures st != OK ==> st == EIO && Reserved(v0, vol.View(), {})
    ensures vol.Reliable() ==> st == OK
  {
    hide *;
    DoubleIndex(lb);
    ghost var r := {b, child};
    NotInvalid(v0, vol.View(), r, child);
    TakenBlocks(b, child, INVALID);
    OneEntryIs(Inner(lb), b);
    st := StorePointer(vol, child, NoPointers(), Inner(lb), b, b, child, INVALID, v0, r);
    if st != OK {
      return;
    }
    ReserveWrite(v0, old(vol.View()), r, child, EncodePointers(OneEntry(Inner(lb), b)));
    PutBlockTotal(old(vol.View()), child, EncodePointers(OneEntry(Inner(lb), b)));
    st := StorePointer(vol, root, roots, Outer(lb), child, b, child, INVALID, v0, r);
  }

  /** Links block b, just taken, through a child table that exists. */
  method LinkThroughOldChild(vol: DenyVolume, ino: nat, lb: nat, b: u32, child: u32, ghost v0: Vol, ghost own: Owners)
    returns (st: Status, ghost vp: Vol, ghost r: set<nat>, ghost own': Owners)
    requires vol.Valid() && SINGLE_END <= lb && Taken(v0, own, vol.View(), ino, lb, b)
    requires Ref(vol.View(), Slot(ino, Child(Outer(lb)))) == child != INVALID
    modifies vol.Footprint()
    ensures vol.Valid()
    ensures st == OK ==> Supplied(v0, vp, r, vol.View(), own', ino, lb) && Phys(vol.View(), ino, lb) == b
    ensures st != OK ==> st == EIO && Reserved(v0, vol.View(), {})
    ensures vol.Reliable() ==> st == OK
  {
    hide *;
    vp, r := vol.View(), {b};
    TakenShape(v0, own, vp, ino, lb, b);
    DoubleIndex(lb);
    TakenBlocks(b, INVALID, INVALID);
    ghost var v';
    v', own' := OldChild(v0, own, vp, ino, lb, b, child);
    var pointers;
    st, pointers := ReadTable(vol, child, b, INVALID, v0, r);
    if st != OK {
      return;
    }
    st := StorePointer(vol, child, pointers, Inner(lb), b, b, INVALID, INVALID, v0, r);
  }

  /** Links block b, just taken, through the double-indirect root. */
  method LinkThroughDouble(vol: DenyVolume, ino: nat, lb: nat, b: u32, ghost v0: Vol, ghost own: Owners)
    returns (st: Status, ghost vp: Vol, ghost r: set<nat>, ghost own': Owners)
    requires vol.Valid() && SINGLE_END <= lb && Taken(v0, own, vol.View(), ino, lb, b)
    modifies vol.Footprint()
    ensures vol.Valid()
    ensures st == OK ==> Supplied(v0, vp, r, vol.View(), own', ino, lb) && Phys(vol.View(), ino, lb) == b
    ensures st != OK ==> Reserved(v0, vol.View(), {})
    ensures st == ENOSPC ==> v0.freeBlocks < |Missing(v0, ino, lb)|
    ensures st == OK || st == ENOSPC || st == EIO
    ensures vol.Reliable() ==> st != EIO
  {
    hide *;
    vp, r, own' := vol.View(), {b}, own;
    TakenShape(v0, own, vp, ino, lb, b);
    DoubleIndex(lb);
    var root := vol.Node(ino).double;
    if root == INVALID {
      st, vp, r, own' := LinkThroughNewRoot(vol, ino, lb, b, v0, own);
      return;
    }
    OldRoot(v0, own, vp, ino, lb, b, root);
    TakenBlocks(b, INVALID, INVALID);
    var roots;
    st, roots := ReadTable(vol, root, b, INVALID, v0, r);
    if st != OK {
      return;
    }
    if roots[Outer(lb)] == INVALID {
      st, vp, r, own' := LinkThroughNewChild(vol, ino, lb, b, root, roots, v0, own);
    } else {
      st, vp, r, own' := LinkThroughOldChild(vol, ino, lb, b, roots[Outer(lb)], v0, own);
    }
  }

  /** Links block b, just taken, through the single-indirect table. */
  method LinkThroughSingle(vol: DenyVolume, ino: nat, lb: nat, b: u32, ghost v0: Vol, ghost own: Owners)
    returns (st: Status, ghost vp: Vol, ghost r: set<nat>, ghost own': Owners)
    requires vol.Valid() && DIRECT_BLOCKS <= lb < SINGLE_END && Taken(v0, own, vol.View(), ino, lb, b)
    modifies vol.Footprint()
    ensures vol.Valid()
    ensures st == OK ==> Supplied(v0, vp, r, vol.View(), own', ino, lb) && Phys(vol.View(), ino, lb) == b
    ensures st != OK ==> Reserved(v0, vol.View(), {})
    ensures st == ENOSPC ==> v0.freeBlocks < |Missing(v0, ino, lb)|
    ensures st == OK || st == ENOSPC || st == EIO
    ensures vol.Reliable() ==> st != EIO
  {
    hide *;
    TakenShape(v0, own, vol.View(), ino, lb, b);
    if vol.Node(ino).indirect == INVALID {
      st, vp, r, own' := LinkThroughNewSingle(vol, ino, lb, b, v0, own);
    } else {
      st, vp, r, own' := LinkThroughOldSingle(vol, ino, lb, b, v0, own);
    }
  }

  /** Links block b, just taken, as a direct block. */
  method LinkDirect(vol: DenyVolume, ino: nat, lb: nat, b: u32, ghost v0: Vol, ghost own: Owners)
    returns (ghost vp: Vol, ghost r: set<nat>, ghost own': Owners)
    requires vol.Valid() && lb < DIRECT_BLOCKS && Taken(v0, own, vol.View(), ino, lb, b)
    modifies vol.Footprint()
    ensures vol.Valid()
    ensures Supplied(v0, vp, r, vol.View(), own', ino, lb) && Phys(vol.View(), ino, lb) == b
  {
    hide *;
    vp, r := vol.View(), {b};
    TakenShape(v0, own, vp, ino, lb, b);
    var inode := vol.Node(ino);
    ghost var v';
    v', own' := DirectSlot(v0, own, vp, ino, lb, b);
    vol.PutInode(ino, inode.(direct := inode.direct[lb := b]));
  }

  lemma DirectSlot(v0: Vol, own: Owners, v: Vol, ino: nat, lb: nat, b: u32) returns (v': Vol, own': Owners)
    requires Shape(v) && ino < MAX_INODES && lb < DIRECT_BLOCKS && Taken(v0, own, v, ino, lb, b)
    ensures v' == WithInode(v, ino, v.inodes[ino].(direct := v.inodes[ino].direct[lb := b]))
    ensures Phys(v', ino, lb) == b && Supplied(v0, v, {b}, v', own', ino, lb) && lb < |v.inodes[ino].direct|
  {
    hide Core, Supplied, Taken, BitmapBlocks;
    v', own' := SuppliedData(v0, own, v, ino, lb, b);
  }

  lemma SuppliedGrown(v0: Vol, own: Owners, vp: Vol, r: set<nat>, v: Vol, own': Owners, ino: nat, lb: nat)
    requires Mapping(v0, own) && Supplied(v0, vp, r, v, own', ino, lb) && Phys(v0, ino, lb) == INVALID
    ensures Shape(v) && v.inodes[ino].blockCount < INVALID
    ensures Grown(v0, WithInode(v, ino, v.inodes[ino].(blockCount := v.inodes[ino].blockCount + 1)), own', ino, lb)
    ensures Phys(WithInode(v, ino, v.inodes[ino].(blockCount := v.inodes[ino].blockCount + 1)), ino, lb) == Phys(v,
            ino, lb)
  {
    hide Reserved, Linked, Mapping, Grown, BitmapBlocks, Missing;
    SuppliedShape(v0, vp, r, v, own', ino, lb);
    GrownFrom(v0, own, vp, r, v, own', ino, lb);
  }

  lemma SuppliedShape(v0: Vol, vp: Vol, r: set<nat>, v: Vol, own: Owners, ino: nat, lb: nat)
    requires Supplied(v0, vp, r, v, own, ino, lb)
    ensures Shape(v0) && Shape(vp) && Shape(v) && ino < MAX_INODES && lb < MAX_FILE_BLOCKS
  {
  }

  lemma TakenIntro(v0: Vol, own: Owners, v: Vol, ino: nat, lb: nat, b: u32)
    requires Mapping(v0, own) && ino < MAX_INODES && lb < MAX_FILE_BLOCKS && Phys(v0, ino, lb) == INVALID
    requires Reserved(v0, v, {b}) && Shape(v0) && v.disk == PutBlock(v0, b, ZeroSector()).disk
    ensures Taken(v0, own, v, ino, lb, b)
    ensures |Missing(v0, ino, lb)| >= 1
  {
    hide Core, Counted, NoHollow, Get;
    assert Data(lb) in Missing(v0, ino, lb);
    SubsetSize({Data(lb)}, Missing(v0, ino, lb));
  }

  /**
   * allocate_file_data_block: an exact update or a no-op. On success exactly the missing slots of
   * lb are filled, with blocks that were free, and lb reads as zeros; on failure every block in use,
   * the bitmap, the counters and the inodes are as before.
   */
  method AllocateFileDataBlock(vol: DenyVolume, ino: nat, lb: nat, ghost own: Owners)
    returns (st: Status, block: u32, ghost own': Owners)
    requires vol.Valid() && Mapping(vol.View(), own) && ino < MAX_INODES
    modifies vol.Footprint()
    ensures vol.Valid()
    ensures st == EINVAL <==> lb >= MAX_FILE_BLOCKS
    ensures st == OK && Phys(old(vol.View()), ino, lb) != INVALID ==>
              block == Phys(old(vol.View()), ino, lb) && vol.View() == old(vol.View()) && own' == own
    ensures st == OK && Phys(old(vol.View()), ino, lb) == INVALID ==>
              block == Phys(vol.View(), ino, lb) && Grown(old(vol.View()), vol.View(), own', ino, lb)
    ensures st != OK ==> Reserved(old(vol.View()), vol.View(), {}) && own' == own
    ensures st == ENOSPC ==> lb < MAX_FILE_BLOCKS && old(vol.View()).freeBlocks < |Missing(old(vol.View()), ino, lb)|
    ensures vol.Reliable() && lb < MAX_FILE_BLOCKS ==> st == OK || st == ENOSPC
  {
    hide *;
    ghost var v0 := vol.View();
    own' := own;
    MappingFacts(v0, own);
    ReserveNone(v0);
    st, block := GetFileDataBlock(vol, ino, lb, own);
    if st != OK || block != INVALID {
      return;
    }
    st, block := AllocateFilled(vol, ZeroSector(), v0, {});
    if st != OK {
      MissingSome(v0, ino, lb);
      return;
    }
    assert {} + {block} == {block};
    TakenIntro(v0, own, vol.View(), ino, lb, block);
    ghost var vp, r;
    st, vp, r, own' := LinkBlock(vol, ino, lb, block, v0, own);
    if st != OK {
      own' := own;
      return;
    }
    SuppliedGrown(v0, own, vp, r, vol.View(), own', ino, lb);
    var inode := vol.Node(ino);
    vol.PutInode(ino, inode.(blockCount := inode.blockCount + 1));
  }

  lemma MappingFacts(v: Vol, own: Owners)
    requires Mapping(v, own)
    ensures Core(v, own, {}) && Shape(v) && v.freeBlocks == |FreeSet(v)|
  {
  }

  lemma MissingSome(v: Vol, ino: nat, lb: nat)
    requires Shape(v) && ino < MAX_INODES && lb < MAX_FILE_BLOCKS && Phys(v, ino, lb) == INVALID
    ensures |Missing(v, ino, lb)| >= 1
  {
    assert Data(lb) in Missing(v, ino, lb);
    SubsetSize({Data(lb)}, Missing(v, ino, lb));
  }

  /** Links a data block, just taken, at the level that maps its logical block. */
  method LinkBlock(vol: DenyVolume, ino: nat, lb: nat, b: u32, ghost v0: Vol, ghost own: Owners)
    returns (st: Status, ghost vp: Vol, ghost r: set<nat>, ghost own': Owners)
    requires vol.Valid() && Taken(v0, own, vol.View(), ino, lb, b)
    modifies vol.Footprint()
    ensures vol.Valid()
    ensures st == OK ==> Supplied(v0, vp, r, vol.View(), own', ino, lb) && Phys(vol.View(), ino, lb) == b
    ensures st != OK ==> Reserved(v0, vol.View(), {})
    ensures st == ENOSPC ==> v0.freeBlocks < |Missing(v0, ino, lb)|
    ensures st == OK || st == ENOSPC || st == EIO
    ensures vol.Reliable() ==> st != EIO
  {
    hide *;
    if lb < DIRECT_BLOCKS {
      vp, r, own' := LinkDirect(vol, ino, lb, b, v0, own);
      st := OK;
    } else if lb < SINGLE_END {
      st, vp, r, own' := LinkThroughSingle(vol, ino, lb, b, v0, own);
    } else {
      st, vp, r, own' := LinkThroughDouble(vol, ino, lb, b, v0, own);
    }
  }
}
