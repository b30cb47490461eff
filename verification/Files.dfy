/** File contents as bytes, the space a range of blocks still needs, and one block stored. */
module Files {
  import opened Base
  import opened Codec
  import opened FileMap
  import opened Ownership
  import opened Frames
  import opened Growth

  const MAX_BYTES: nat := 4096 * (20 + 1024 + 1024 * 1024)

  /** Byte k of a file's block map, whatever the file's size says. */
  function ByteAt(v: Vol, ino: nat, k: nat): (b: byte)
    requires |v.inodes| == MAX_INODES && ino < MAX_INODES && k < MAX_BYTES
  {
    Block(v, ino, k / SECTOR_SIZE)[k % SECTOR_SIZE]
  }

  // ---------------------------------------------------------- space needed

  /** The missing slots of the logical blocks from lo up to hi. */
  ghost function MissingRange(v: Vol, ino: nat, lo: nat, hi: nat): (locs: set<Loc>)
    requires |v.inodes| == MAX_INODES && ino < MAX_INODES && hi <= MAX_FILE_BLOCKS
    decreases hi
  {
    if hi <= lo then {} else Missing(v, ino, hi - 1) + MissingRange(v, ino, lo, hi - 1)
  }

  lemma {:induction false} MissingWithin(v: Vol, ino: nat, lo: nat, hi: nat, lb: nat)
    requires |v.inodes| == MAX_INODES && ino < MAX_INODES && lo <= lb < hi <= MAX_FILE_BLOCKS
    ensures Missing(v, ino, lb) <= MissingRange(v, ino, lo, hi)
    decreases hi
  {
    hide Missing;
    if lb < hi - 1 { MissingWithin(v, ino, lo, hi - 1, lb); }
  }

  /** The path of a mapped block has no missing slot. */
  lemma MappedMissing(v: Vol, own: Owners, ino: nat, lb: nat)
    requires Core(v, own, {}) && |v.inodes| == MAX_INODES && |v.disk| <= INVALID
    requires ino < MAX_INODES && lb < MAX_FILE_BLOCKS
    ensures Phys(v, ino, lb) != INVALID <==> Missing(v, ino, lb) == {}
  {
    hide Core, Ptr;
    assert Phys(v, ino, lb) == INVALID ==> Data(lb) in Missing(v, ino, lb);
  }

  lemma {:induction false} MissingRangeMapped(v: Vol, ino: nat, lo: nat, hi: nat)
    requires |v.inodes| == MAX_INODES && ino < MAX_INODES && hi <= MAX_FILE_BLOCKS
    requires forall lb :: lo <= lb < hi ==> Missing(v, ino, lb) == {}
    ensures MissingRange(v, ino, lo, hi) == {}
    decreases hi
  {
    hide Missing;
    if lo < hi {
      MissingRangeMapped(v, ino, lo, hi - 1);
    }
  }

  /** The slots that some step filled are no longer missing; all others are as before. */
  ghost predicate Filled(v: Vol, v': Vol, ino: nat, locs: set<Loc>)
    requires |v.inodes| == MAX_INODES == |v'.inodes|
  {
    && (forall s :: ValidSlot(s) && Ref(v, s) != INVALID ==> Ref(v', s) == Ref(v, s))
    && (forall s :: ValidSlot(s) && Ref(v, s) == INVALID ==> (Ref(v', s) != INVALID <==> s.ino == ino && s.loc in locs))
  }

  lemma {:induction false} MissingRangeFilled(v: Vol, v': Vol, ino: nat, locs: set<Loc>, lo: nat, hi: nat)
    requires |v.inodes| == MAX_INODES == |v'.inodes| && ino < MAX_INODES && hi <= MAX_FILE_BLOCKS
    requires Filled(v, v', ino, locs)
    ensures MissingRange(v', ino, lo, hi) == MissingRange(v, ino, lo, hi) - locs
    decreases hi
  {
    hide Ref;
    if lo < hi {
      MissingRangeFilled(v, v', ino, locs, lo, hi - 1);
      assert Missing(v', ino, hi - 1) == Missing(v, ino, hi - 1) - locs;
    }
  }

  /** Storing block lb spends exactly what its range no longer needs. */
  lemma RangeCost(v: Vol, v': Vol, ino: nat, lb: nat, lo: nat, hi: nat)
    requires |v.inodes| == MAX_INODES == |v'.inodes| && ino < MAX_INODES && lo <= lb < hi <= MAX_FILE_BLOCKS
    requires Filled(v, v', ino, Missing(v, ino, lb))
    ensures |MissingRange(v', ino, lo, hi)| == |MissingRange(v, ino, lo, hi)| - |Missing(v, ino, lb)|
    ensures |Missing(v, ino, lb)| <= |MissingRange(v, ino, lo, hi)|
  {
    hide Filled, Missing, MissingRange;
    MissingRangeFilled(v, v', ino, Missing(v, ino, lb), lo, hi);
    MissingWithin(v, ino, lo, hi, lb);
    SubsetSize(Missing(v, ino, lb), MissingRange(v, ino, lo, hi));
  }

  // ------------------------------------------------------- storing a block

  /** From v to v', logical block lb of a file was mapped, if it was a hole, and its contents became data. */
  ghost predicate Stored(v: Vol, v': Vol, own': Owners, ino: nat, lb: nat, data: Sector)
  {
    && ino < MAX_INODES && lb < MAX_FILE_BLOCKS
    && Mapping(v', own') && Tracked(v, v') && SameFiles(v, v', ino)
    && Filled(v, v', ino, Missing(v, ino, lb))
    && v'.freeBlocks == v.freeBlocks - |Missing(v, ino, lb)|
    && (forall i, l :: 0 <= i < MAX_INODES && 0 <= l < MAX_FILE_BLOCKS ==>
          Block(v', i, l) == if i == ino && l == lb then data else Block(v, i, l))
  }

  lemma GrownFilled(v: Vol, v': Vol, own': Owners, ino: nat, lb: nat)
    requires Grown(v, v', own', ino, lb)
    ensures Shape(v) && Shape(v') && ino < MAX_INODES && lb < MAX_FILE_BLOCKS && Filled(v, v', ino, Missing(v, ino, lb))
    ensures Mapping(v', own') && Tracked(v, v') && SameFiles(v, v', ino) && SameBlocks(v, v')
    ensures v'.freeBlocks == v.freeBlocks - |Missing(v, ino, lb)|
  {
    hide Mapping, Ref, BitmapBlocks;
    forall s | ValidSlot(s) && Ref(v, s) == INVALID
      ensures Ref(v', s) != INVALID <==> s.ino == ino && s.loc in Missing(v, ino, lb)
    {
    }
  }

  /** Overwriting the block of a mapped logical block. */
  lemma DataWrite(v: Vol, own: Owners, ino: nat, lb: nat, data: Sector)
    requires Mapping(v, own) && Shape(v) && ino < MAX_INODES && lb < MAX_FILE_BLOCKS && Phys(v, ino, lb) != INVALID
    ensures var v' := PutBlock(v, Phys(v, ino, lb), data);
            Stored(v, v', own, ino, lb, data) && SameSpace(v, v') && Filled(v, v', ino, {}) && v'.inodes == v.inodes
  {
    hide Core, Get, BitmapBlocks, Counted, NoHollow;
    var q := Slot(ino, Data(lb));
    var b := Phys(v, ino, lb);
    var v' := PutBlock(v, b, data);
    OwnsItsTable(v, own, {}, q);
    CoreFrame(v, v', own, {});
    SameRefsCounted(v, v');
    MappedMissing(v, own, ino, lb);
    forall i, l | 0 <= i < MAX_INODES && 0 <= l < MAX_FILE_BLOCKS
      ensures Block(v', i, l) == if i == ino && l == lb then data else Block(v, i, l)
    {
      OwnsItsTable(v, own, {}, Slot(i, Data(l)));
    }
  }

  /** Filling a hole and then overwriting it stores the block. */
  lemma GrowThenWrite(v: Vol, v1: Vol, own1: Owners, ino: nat, lb: nat, data: Sector)
    requires Grown(v, v1, own1, ino, lb) && Shape(v1) && ino < MAX_INODES && lb < MAX_FILE_BLOCKS
    requires Phys(v1, ino, lb) != INVALID
    ensures Stored(v, PutBlock(v1, Phys(v1, ino, lb), data), own1, ino, lb, data)
  {
    hide Grown, Mapping, Get, Missing, BitmapBlocks, Tracked, Block;
    GrownFilled(v, v1, own1, ino, lb);
    DataWrite(v1, own1, ino, lb, data);
    TrackedTransitive(v, v1, PutBlock(v1, Phys(v1, ino, lb), data));
  }
}
