/** The order in which the loader visits the slots of a volume, and what it knows on the way. */
module Scan {
  import opened Base
  import opened Codec
  import opened FileMap
  import opened Ownership
  import opened Growth
  import opened FileSystem
  import opened BlockMap

  /** The loader may accept a volume: some assignment of owners makes it sound. */
  ghost predicate Acceptable(v: Vol)
  {
    exists own :: Sound(v, own)
  }

  // -------------------------------------------------------------------- order

  const DOUBLE_RANK: nat := 20 + 1 + 1024 + 1
  const CHILD_RANKS: nat := 1 + 1024
  const END_RANK: nat := 20 + 1 + 1024 + 1 + 1024 * 1025

  /** The position of a slot in the scan of one inode: each table just before its entries. */
  function Rank(l: Loc): (r: nat)
  {
    match l
    case Data(lb) =>
      if lb < DIRECT_BLOCKS then lb
      else if lb < SINGLE_END then lb + 1
      else DOUBLE_RANK + Outer(lb) * CHILD_RANKS + 1 + Inner(lb)
    case Ind => DIRECT_BLOCKS
    case Dbl => SINGLE_END + 1
    case Child(o) => DOUBLE_RANK + o * CHILD_RANKS
  }

  lemma RankInjective(l: Loc, m: Loc)
    requires ValidLoc(l) && ValidLoc(m) && Rank(l) == Rank(m)
    ensures l == m
  {
    if l.Data? && SINGLE_END <= l.lb { OuterInner(l.lb); RankBlock(Outer(l.lb), 1 + Inner(l.lb)); }
    if m.Data? && SINGLE_END <= m.lb { OuterInner(m.lb); RankBlock(Outer(m.lb), 1 + Inner(m.lb)); }
    if l.Child? { RankBlock(l.outer, 0); }
    if m.Child? { RankBlock(m.outer, 0); }
  }

  lemma RankBlock(o: nat, i: nat)
    requires i < CHILD_RANKS
    ensures (o * CHILD_RANKS + i) / CHILD_RANKS == o && (o * CHILD_RANKS + i) % CHILD_RANKS == i
  {
  }

  lemma RankBound(l: Loc)
    requires ValidLoc(l)
    ensures Rank(l) < END_RANK
  {
  }

  /** Slot s comes before rank r of inode ino. */
  predicate Before(s: Slot, ino: nat, r: nat)
  {
    s.ino < ino || (s.ino == ino && Rank(s.loc) < r)
  }

  // -------------------------------------------------------------------- state

  /** own holds exactly the blocks to which the slots before rank r of inode ino refer, all in use and all different. */
  ghost predicate Visited(v: Vol, own: Owners, ino: nat, r: nat)
    requires |v.inodes| == MAX_INODES
  {
    && (forall b :: b in own ==> Used(v, b) && ValidSlot(own[b]) && Before(own[b], ino, r) && Ref(v, own[b]) == b)
    && (forall s :: ValidSlot(s) && Before(s, ino, r) && Ref(v, s) != INVALID ==>
          Ref(v, s) in own && own[Ref(v, s)] == s)
  }

  lemma VisitNone(v: Vol)
    requires |v.inodes| == MAX_INODES
    ensures Visited(v, map[], 0, 0)
  {
    hide Ref;
  }

  lemma VisitNext(v: Vol, own: Owners, ino: nat)
    requires |v.inodes| == MAX_INODES && Visited(v, own, ino, END_RANK)
    ensures Visited(v, own, ino + 1, 0)
  {
    hide Ref, Rank;
    forall s | ValidSlot(s)
      ensures Before(s, ino + 1, 0) <==> Before(s, ino, END_RANK)
    {
      RankBound(s.loc);
    }
  }

  lemma BeforeStep(s: Slot, ino: nat, l: Loc)
    requires ValidSlot(s) && ValidLoc(l)
    ensures Before(s, ino, Rank(l) + 1) <==> Before(s, ino, Rank(l)) || s == Slot(ino, l)
  {
    hide Rank;
    if s.ino == ino && Rank(s.loc) == Rank(l) { RankInjective(s.loc, l); }
  }

  /** A slot that refers to nothing. */
  lemma VisitHole(v: Vol, own: Owners, ino: nat, l: Loc)
    requires |v.inodes| == MAX_INODES && ino < MAX_INODES && ValidLoc(l) && Visited(v, own, ino, Rank(l))
    requires Ref(v, Slot(ino, l)) == INVALID
    ensures Visited(v, own, ino, Rank(l) + 1)
  {
    hide Ref, Rank;
    forall s | ValidSlot(s)
      ensures Before(s, ino, Rank(l) + 1) <==> Before(s, ino, Rank(l)) || s == Slot(ino, l)
    {
      BeforeStep(s, ino, l);
    }
  }

  /** A stretch of slots that refer to nothing. */
  lemma VisitHoles(v: Vol, own: Owners, ino: nat, r: nat, r': nat)
    requires |v.inodes| == MAX_INODES && ino < MAX_INODES && r <= r' && Visited(v, own, ino, r)
    requires forall l :: ValidLoc(l) && r <= Rank(l) < r' ==> Ref(v, Slot(ino, l)) == INVALID
    ensures Visited(v, own, ino, r')
  {
    hide Ref, Rank;
    forall s | ValidSlot(s) && Before(s, ino, r') && Ref(v, s) != INVALID
      ensures Before(s, ino, r)
    {
      assert s == Slot(s.ino, s.loc);
    }
  }

  /** A slot that refers to a block in use that no earlier slot refers to. */
  lemma VisitBlock(v: Vol, own: Owners, ino: nat, l: Loc, b: nat)
    requires |v.inodes| == MAX_INODES && ino < MAX_INODES && ValidLoc(l) && Visited(v, own, ino, Rank(l))
    requires Ref(v, Slot(ino, l)) == b && Used(v, b) && b !in own
    ensures Visited(v, own[b := Slot(ino, l)], ino, Rank(l) + 1)
  {
    hide Ref, Rank;
    forall s | ValidSlot(s)
      ensures Before(s, ino, Rank(l) + 1) <==> Before(s, ino, Rank(l)) || s == Slot(ino, l)
    {
      BeforeStep(s, ino, l);
    }
  }

  /** A block that cannot be claimed makes the volume unacceptable. */
  lemma VisitFails(v: Vol, own: Owners, ino: nat, l: Loc, b: nat)
    requires |v.inodes| == MAX_INODES && ino < MAX_INODES && ValidLoc(l) && Visited(v, own, ino, Rank(l))
    requires Ref(v, Slot(ino, l)) == b != INVALID && (!Used(v, b) || b in own)
    ensures !Acceptable(v)
  {
    hide Ref, Rank, Sound;
    forall own0 ensures !Sound(v, own0) {
      if Sound(v, own0) {
        SoundCore(v, own0);
        RefInUse(v, own0, Slot(ino, l));
        NoSharing(v, own0, {}, own[b], Slot(ino, l));
        assert false;
      }
    }
  }

  lemma SoundCore(v: Vol, own: Owners)
    requires Sound(v, own)
    ensures Core(v, own, {}) && Shape(v) && Mapping(v, own) && Consistent(v, own) && NothingPast(v)
    ensures Counted(v) && NoHollow(v, {}) && Shaped(v) && DirOk(v) && v.freeInodes == |FreeInodeSet(v)|
  {
    hide Core, Counted, NoHollow, Shaped, DirOk, NothingPast, FreeInodeSet;
    MappingFacts(v, own);
  }

  // ------------------------------------------------------------ one file's map

  /** The mapped blocks of a file below lb. */
  ghost function MappedTo(v: Vol, ino: nat, lb: nat): (m: set<nat>)
    requires |v.inodes| == MAX_INODES && ino < MAX_INODES
  {
    set l: nat | l < MAX_FILE_BLOCKS && l < lb && Phys(v, ino, l) != INVALID
  }

  /** n blocks of the file below lb are mapped, none of them past its end. */
  ghost predicate FileState(v: Vol, ino: nat, lb: nat, n: nat)
    requires |v.inodes| == MAX_INODES && ino < MAX_INODES
  {
    && n == |MappedTo(v, ino, lb)|
    && (forall l :: 0 <= l < lb && l < MAX_FILE_BLOCKS && Phys(v, ino, l) != INVALID ==>
          l < BlocksFor(v.inodes[ino].size))
  }

  lemma FileStart(v: Vol, ino: nat)
    requires |v.inodes| == MAX_INODES && ino < MAX_INODES
    ensures FileState(v, ino, 0, 0)
  {
    hide Phys;
    assert MappedTo(v, ino, 0) == {};
  }

  lemma FileStep(v: Vol, ino: nat, lb: nat, n: nat)
    requires |v.inodes| == MAX_INODES && ino < MAX_INODES && lb < MAX_FILE_BLOCKS && FileState(v, ino, lb, n)
    ensures Phys(v, ino, lb) == INVALID ==> FileState(v, ino, lb + 1, n)
    ensures Phys(v, ino, lb) != INVALID && lb < BlocksFor(v.inodes[ino].size) ==> FileState(v, ino, lb + 1, n + 1)
  {
    hide Phys, BlocksFor;
    if Phys(v, ino, lb) == INVALID {
      assert MappedTo(v, ino, lb + 1) == MappedTo(v, ino, lb);
    } else {
      assert MappedTo(v, ino, lb + 1) == MappedTo(v, ino, lb) + {lb};
    }
  }

  lemma FileHoles(v: Vol, ino: nat, lb: nat, lb': nat, n: nat)
    requires |v.inodes| == MAX_INODES && ino < MAX_INODES && lb <= lb' && FileState(v, ino, lb, n)
    requires forall l :: lb <= l < lb' && l < MAX_FILE_BLOCKS ==> Phys(v, ino, l) == INVALID
    ensures FileState(v, ino, lb', n)
  {
    hide Phys, BlocksFor;
    assert MappedTo(v, ino, lb') == MappedTo(v, ino, lb);
  }

  lemma FileEnd(v: Vol, ino: nat, n: nat)
    requires |v.inodes| == MAX_INODES && ino < MAX_INODES && FileState(v, ino, MAX_FILE_BLOCKS, n)
    ensures n == |Mapped(v, ino)|
  {
    hide Phys;
    assert MappedTo(v, ino, MAX_FILE_BLOCKS) == Mapped(v, ino);
  }

  /** A block past the end of a file makes the volume unacceptable. */
  lemma PastFails(v: Vol, ino: nat, lb: nat)
    requires |v.inodes| == MAX_INODES && IsFile(v, ino) && lb < MAX_FILE_BLOCKS && Phys(v, ino, lb) != INVALID
    requires lb >= BlocksFor(v.inodes[ino].size)
    ensures !Acceptable(v)
  {
    hide Phys, Consistent, BlocksFor;
  }

  /** A table that is absent or has an entry. */
  ghost predicate TableOk(v: Vol, t: Slot)
    requires |v.inodes| == MAX_INODES && ValidSlot(t) && IsTable(t.loc)
  {
    Ref(v, t) == INVALID || !Hollow(v, t)
  }

  lemma HollowFails(v: Vol, t: Slot)
    requires |v.inodes| == MAX_INODES && ValidSlot(t) && IsTable(t.loc) && !TableOk(v, t)
    ensures !Acceptable(v)
  {
    hide Ref, Hollow, Sound;
    forall own ensures !Sound(v, own) {
      if Sound(v, own) {
        SoundCore(v, own);
      }
    }
  }

  /** A child table that starts past the end of the file either is empty or maps a block past the end. */
  lemma ChildPastFails(v: Vol, ino: nat, o: nat)
    requires |v.inodes| == MAX_INODES && IsFile(v, ino) && o < POINTERS_PER_BLOCK
             && Ref(v, Slot(ino, Child(o))) != INVALID
    requires DoubleBlock(o, 0) >= BlocksFor(v.inodes[ino].size)
    ensures !Acceptable(v)
  {
    hide Ref, BlocksFor;
    var t := Slot(ino, Child(o));
    if TableOk(v, t) {
      var i: nat :| i < POINTERS_PER_BLOCK && EntryUsed(v, t, i);
      EntryLocHome(t.loc, i);
      PastFails(v, ino, DoubleBlock(o, i));
    } else {
      HollowFails(v, t);
    }
  }

  lemma CountFails(v: Vol, ino: nat)
    requires |v.inodes| == MAX_INODES && ino < MAX_INODES && v.inodes[ino].blockCount != |Mapped(v, ino)|
    ensures !Acceptable(v)
  {
    hide Mapped, Sound;
    assert !CountedAt(v, ino);
    forall own ensures !Sound(v, own) {
      if Sound(v, own) {
        SoundCore(v, own);
      }
    }
  }

  lemma ShapeFails(v: Vol, ino: nat)
    requires |v.inodes| == MAX_INODES && ino < MAX_INODES && !InodeShape(v.inodes[ino], ino)
    ensures !Acceptable(v)
  {
    hide InodeShape, Mapping, DirOk, NothingPast;
  }

  lemma FreeInodesFail(v: Vol)
    requires |v.inodes| == MAX_INODES && v.freeInodes != |FreeInodeSet(v)|
    ensures !Acceptable(v)
  {
    hide FreeInodeSet, Mapping, DirOk, NothingPast;
  }

  lemma DirectoryFails(v: Vol)
    requires |v.inodes| == MAX_INODES && !DirOk(v)
    ensures !Acceptable(v)
  {
    hide DirOk, Mapping, NothingPast;
  }

  // ----------------------------------------------------- all inodes together

  /** Inode ino has the right shape, an exact count, no table without an entry and, for a file, nothing past its end. */
  ghost predicate InodeOk(v: Vol, ino: nat)
    requires |v.inodes| == MAX_INODES && ino < MAX_INODES
  {
    && InodeShape(v.inodes[ino], ino) && CountedAt(v, ino)
    && (forall l :: ValidLoc(l) && IsTable(l) ==> TableOk(v, Slot(ino, l)))
    && (IsFile(v, ino) ==> forall lb :: 0 <= lb < MAX_FILE_BLOCKS && Phys(v, ino, lb) != INVALID ==>
          lb < BlocksFor(v.inodes[ino].size))
  }

  /** An inode whose shape allows direct blocks only, all in front. */
  lemma DirectsOnly(v: Vol, ino: nat)
    requires Shape(v) && ino < MAX_INODES && InodeShape(v.inodes[ino], ino) && (ino == 0 || v.inodes[ino].kind == FREE)
    ensures InodeOk(v, ino)
    ensures forall l :: ValidLoc(l) && Ref(v, Slot(ino, l)) != INVALID ==> l.Data? && l.lb < DIRECT_BLOCKS
  {
    hide Ptr, BitmapBlocks;
    forall l | ValidLoc(l) && Ref(v, Slot(ino, l)) != INVALID
      ensures l.Data? && l.lb < DIRECT_BLOCKS
    {
    }
    forall lb: nat | lb < MAX_FILE_BLOCKS
      ensures Phys(v, ino, lb) != INVALID <==> lb < v.inodes[ino].blockCount
    {
    }
    hide Phys;
    assert Mapped(v, ino) == Interval(0, v.inodes[ino].blockCount);
  }

  /** The result of the scan of all inodes and of the bitmap is exactly soundness but for the directory. */
  lemma ScanMapping(v: Vol, own: Owners)
    requires Shape(v) && Visited(v, own, MAX_INODES, 0)
    requires forall ino :: 0 <= ino < MAX_INODES ==> InodeOk(v, ino)
    requires v.freeBlocks == |FreeSet(v)| && BitsExact(v, own, {})
    ensures Mapping(v, own) && Shaped(v) && NothingPast(v)
  {
    hide Ref, BitmapBlocks, FreeSet, Rank, InodeShape, BlocksFor, Hollow, CountedAt;
    forall t | ValidSlot(t) && IsTable(t.loc) && Ref(v, t) != INVALID
      ensures !Hollow(v, t)
    {
      assert InodeOk(v, t.ino);
      assert TableOk(v, Slot(t.ino, t.loc));
    }
    forall ino | 0 <= ino < MAX_INODES
      ensures CountedAt(v, ino) && InodeShape(v.inodes[ino], ino)
    {
      assert InodeOk(v, ino);
    }
    forall ino, lb | IsFile(v, ino) && 0 <= lb < MAX_FILE_BLOCKS && Phys(v, ino, lb) != INVALID
      ensures lb < BlocksFor(v.inodes[ino].size)
    {
      assert InodeOk(v, ino);
    }
    ScanCore(v, own);
  }

  lemma ScanCore(v: Vol, own: Owners)
    requires Shape(v) && Visited(v, own, MAX_INODES, 0) && v.freeBlocks == |FreeSet(v)| && BitsExact(v, own, {})
    ensures Core(v, own, {})
  {
    hide Ref, BitmapBlocks, FreeSet, Rank;
    assert OwnersRefer(v, own, {}) && RefsOwned(v, own);
  }
}
