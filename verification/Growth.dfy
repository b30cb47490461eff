/**
 * Linking fresh blocks into a file: which slots a logical block needs, and what
 * filling the missing ones does to the volume.
 */
module Growth {
  import opened Base
  import opened FileMap
  import opened Ownership
  import opened Frames

  // ------------------------------------------------------- tables as slots

  /** The slot kept in entry i of a table. */
  function EntryLoc(t: Loc, i: nat): (l: Loc)
    requires IsTable(t)
  {
    match t
    case Ind => Data(DIRECT_BLOCKS + i)
    case Dbl => Child(i)
    case Child(o) => Data(DoubleBlock(o, i))
  }

  lemma EntryLocHome(t: Loc, i: nat)
    requires IsTable(t) && ValidLoc(t) && i < POINTERS_PER_BLOCK
    ensures ValidLoc(EntryLoc(t, i)) && Home(EntryLoc(t, i)) == Some(t) && IndexIn(EntryLoc(t, i)) == i
  {
    if t.Child? { DoubleSplit(t.outer, i); }
  }

  lemma HomeEntryLoc(l: Loc)
    requires ValidLoc(l) && Home(l).Some?
    ensures IsTable(Home(l).value) && EntryLoc(Home(l).value, IndexIn(l)) == l
  {
    if l.Data? && SINGLE_END <= l.lb { OuterInner(l.lb); }
  }

  ghost predicate EntryUsed(v: Vol, t: Slot, i: nat)
    requires |v.inodes| == MAX_INODES && t.ino < MAX_INODES && IsTable(t.loc)
  {
    ValidLoc(EntryLoc(t.loc, i)) && Ref(v, Slot(t.ino, EntryLoc(t.loc, i))) != INVALID
  }

  /** The table in slot t has no entry. */
  ghost predicate Hollow(v: Vol, t: Slot)
    requires |v.inodes| == MAX_INODES && ValidSlot(t) && IsTable(t.loc)
  {
    forall i: nat :: i < POINTERS_PER_BLOCK ==> !EntryUsed(v, t, i)
  }

  lemma HollowIsEmpty(v: Vol, t: Slot)
    requires |v.inodes| == MAX_INODES && ValidSlot(t) && IsTable(t.loc)
    ensures Hollow(v, t) <==> EmptyTable(v.disk, Ref(v, t))
  {
    forall i: nat | i < POINTERS_PER_BLOCK
      ensures EntryUsed(v, t, i) <==> At(v.disk, Ref(v, t), i) != INVALID
    {
      EntryLocHome(t.loc, i);
      RefViaHome(v, Slot(t.ino, EntryLoc(t.loc, i)));
    }
  }

  /** Every table outside `except` has an entry. */
  ghost predicate NoHollow(v: Vol, except: set<Slot>)
    requires |v.inodes| == MAX_INODES
  {
    forall t :: ValidSlot(t) && IsTable(t.loc) && Ref(v, t) != INVALID && t !in except ==> !Hollow(v, t)
  }

  // ------------------------------------------------------ mapped blocks

  /** The logical blocks of a file that are not holes. */
  ghost function Mapped(v: Vol, ino: nat): (m: set<nat>)
    requires |v.inodes| == MAX_INODES && ino < MAX_INODES
  {
    set lb: nat | lb < MAX_FILE_BLOCKS && Phys(v, ino, lb) != INVALID
  }

  ghost predicate CountedAt(v: Vol, ino: nat)
    requires |v.inodes| == MAX_INODES && ino < MAX_INODES
  {
    v.inodes[ino].blockCount == |Mapped(v, ino)|
  }

  /** Every cached block count is exact. */
  ghost predicate Counted(v: Vol)
    requires |v.inodes| == MAX_INODES
  {
    forall ino :: 0 <= ino < MAX_INODES ==> CountedAt(v, ino)
  }

  // -------------------------------------------------------- missing slots

  /** The slots that must be filled for a logical block to be mapped. */
  function Need(lb: nat): (locs: set<Loc>)
    requires lb < MAX_FILE_BLOCKS
    ensures forall l :: l in locs ==> ValidLoc(l)
    ensures Data(lb) in locs
  {
    if lb < DIRECT_BLOCKS then {Data(lb)}
    else if lb < SINGLE_END then {Ind, Data(lb)}
    else {Dbl, Child(Outer(lb)), Data(lb)}
  }

  ghost function Missing(v: Vol, ino: nat, lb: nat): (locs: set<Loc>)
    requires |v.inodes| == MAX_INODES && ino < MAX_INODES && lb < MAX_FILE_BLOCKS
  {
    set l | l in Need(lb) && Ref(v, Slot(ino, l)) == INVALID
  }

  // ----------------------------------------------------------- frames

  /** Bitmap changes are flagged dirty, and no metadata block is overwritten. */
  ghost predicate Tracked(v: Vol, v': Vol)
  {
    && Shape(v) && Shape(v')
    && v'.total == v.total && v'.dataStart == v.dataStart && v'.bitmapBlocks == v.bitmapBlocks
    && v'.foreign == v.foreign
    && (forall i :: 0 <= i < v.bitmapBlocks && v.dirty[i] ==> v'.dirty[i])
    && (forall b :: 0 <= b < |v.bitmap| && v'.bitmap[b] != v.bitmap[b] ==> v'.dirty[BitmapSector(b)])
    && (forall k :: 0 <= k < v.dataStart ==> v'.disk[k] == v.disk[k])
  }

  lemma TrackedTransitive(u: Vol, v: Vol, w: Vol)
    requires Tracked(u, v) && Tracked(v, w)
    ensures Tracked(u, w)
  {
    hide BitmapBlocks;
    forall b | 0 <= b < |u.bitmap|
      ensures 0 <= BitmapSector(b) < u.bitmapBlocks
    {
    }
    hide BitmapSector;
  }

  ghost predicate SameBlocks(v: Vol, v': Vol)
    requires |v.inodes| == MAX_INODES == |v'.inodes|
  {
    forall ino, lb :: 0 <= ino < MAX_INODES && 0 <= lb < MAX_FILE_BLOCKS ==> Block(v', ino, lb) == Block(v, ino, lb)
  }

  /** Only inode ino changed, and of it only pointers and the block count. */
  ghost predicate SameFiles(v: Vol, v': Vol, ino: nat)
    requires |v.inodes| == MAX_INODES == |v'.inodes| && ino < MAX_INODES
  {
    && v'.freeInodes == v.freeInodes
    && (forall i :: 0 <= i < MAX_INODES && i != ino ==> v'.inodes[i] == v.inodes[i])
    && v'.inodes[ino].kind == v.inodes[ino].kind
    && v'.inodes[ino].size == v.inodes[ino].size
    && v'.inodes[ino].mtime == v.inodes[ino].mtime
  }

  // --------------------------------------------------- linking pending blocks

  /** From v to v', the slots (ino, l) with l in locs were filled with pending blocks, and nothing else changed. */
  ghost predicate Linked(v: Vol, pend: set<nat>, v': Vol, own': Owners, pend': set<nat>, ino: nat, locs: set<Loc>)
  {
    && Shape(v) && ino < MAX_INODES
    && Core(v', own', pend')
    && pend' <= pend
    && (forall l :: l in locs ==> ValidLoc(l) && Ref(v, Slot(ino, l)) == INVALID)
    && (forall l :: l in locs ==> Ref(v', Slot(ino, l)) != INVALID && Ref(v', Slot(ino, l)) in pend)
    && (forall s :: ValidSlot(s) && !(s.ino == ino && s.loc in locs) ==> Ref(v', s) == Ref(v, s))
    && Tracked(v, v') && v'.bitmap == v.bitmap && v'.freeBlocks == v.freeBlocks
    && SameFiles(v, v', ino) && v'.inodes[ino].blockCount == v.inodes[ino].blockCount
    && SameBlocks(v, v')
  }

  lemma LinkOne(v: Vol, own: Owners, pend: set<nat>, ino: nat, l: Loc, b: u32)
    requires Core(v, own, pend) && Settable(v, pend, Slot(ino, l), b) && b in pend && Ref(v, Slot(ino, l)) == INVALID
    requires l.Data? ==> Load(v.disk, b) == Block(v, ino, l.lb)
    ensures Linked(v, pend, SetRef(v, Slot(ino, l), b), own[b := Slot(ino, l)], pend - {b}, ino, {l})
    ensures Ref(SetRef(v, Slot(ino, l), b), Slot(ino, l)) == b
  {
    hide Core, SetRef, Get, Tracked, SameBlocks, EmptyTable, BitmapBlocks;
    CoreShape(v, own, pend);
    PendingIsData(v, own, pend, b);
    Attach(v, own, pend, Slot(ino, l), b);
    SetRefMeta(v, own, pend, Slot(ino, l), b);
    SetRefSameBlocks(v, own, pend, Slot(ino, l), b);
  }

  lemma SetRefSameBlocks(v: Vol, own: Owners, pend: set<nat>, s: Slot, x: u32)
    requires Core(v, own, pend) && Settable(v, pend, s, x) && Shape(v) && Shape(SetRef(v, s, x))
    requires s.loc.Data? ==> Load(v.disk, x) == Block(v, s.ino, s.loc.lb)
    ensures SameBlocks(v, SetRef(v, s, x))
  {
    hide Core, SetRef, EmptyTable, Load, Phys;
    forall ino, lb | 0 <= ino < MAX_INODES && 0 <= lb < MAX_FILE_BLOCKS
      ensures Block(SetRef(v, s, x), ino, lb) == Block(v, ino, lb)
    {
      SetRefBlock(v, own, pend, s, x, ino, lb);
    }
  }

  lemma SetRefMeta(v: Vol, own: Owners, pend: set<nat>, s: Slot, x: u32)
    requires Core(v, own, pend) && Settable(v, pend, s, x)
    ensures Shape(v) && Shape(SetRef(v, s, x)) && Tracked(v, SetRef(v, s, x)) && SameFiles(v, SetRef(v, s, x), s.ino)
    ensures SameSpace(v, SetRef(v, s, x)) && SetRef(v, s, x).inodes[s.ino].blockCount == v.inodes[s.ino].blockCount
  {
    hide Core;
    CoreShape(v, own, pend);
    if Home(s.loc).Some? {
      OwnsItsTable(v, own, pend, Slot(s.ino, Home(s.loc).value));
    }
  }

  lemma LinkedTransitive(v: Vol, pend: set<nat>, v1: Vol, own1: Owners, pend1: set<nat>,
                         v2: Vol, own2: Owners, pend2: set<nat>, ino: nat, a: set<Loc>, b: set<Loc>)
    requires Linked(v, pend, v1, own1, pend1, ino, a) && Linked(v1, pend1, v2, own2, pend2, ino, b)
    ensures Linked(v, pend, v2, own2, pend2, ino, a + b)
  {
    CoreShape(v2, own2, pend2);
    hide Core, Ref, Tracked, SameBlocks;
    TrackedTransitive(v, v1, v2);
    SameBlocksTransitive(v, v1, v2);
  }

  lemma SameBlocksTransitive(u: Vol, v: Vol, w: Vol)
    requires |u.inodes| == MAX_INODES == |v.inodes| == |w.inodes|
    requires SameBlocks(u, v) && SameBlocks(v, w)
    ensures SameBlocks(u, w)
  {
    hide Block;
  }

  /** Filling the missing slots of lb maps lb and no other block. */
  lemma LinkedMapped(v: Vol, pend: set<nat>, v': Vol, own': Owners, pend': set<nat>, ino: nat, lb: nat)
    requires Shape(v) && Shape(v') && ino < MAX_INODES && lb < MAX_FILE_BLOCKS && Phys(v, ino, lb) == INVALID
    requires Linked(v, pend, v', own', pend', ino, Missing(v, ino, lb))
    ensures Mapped(v', ino) == Mapped(v, ino) + {lb} && lb !in Mapped(v, ino)
    ensures forall i :: 0 <= i < MAX_INODES && i != ino ==> Mapped(v', i) == Mapped(v, i)
    ensures |Mapped(v', ino)| == |Mapped(v, ino)| + 1
  {
    hide Core, Ref, Tracked, SameBlocks, BitmapBlocks;
    assert Data(lb) in Missing(v, ino, lb);
    forall i, b: nat | 0 <= i < MAX_INODES && b < MAX_FILE_BLOCKS
      ensures Phys(v', i, b) != INVALID <==> Phys(v, i, b) != INVALID || (i == ino && b == lb)
    {
      assert i == ino && Data(b) in Missing(v, ino, lb) ==> b == lb;
    }
    assert Mapped(v', ino) == Mapped(v, ino) + {lb};
  }

  /** Filling the missing slots of lb leaves no table without an entry. */
  lemma LinkedNoHollow(v: Vol, pend: set<nat>, v': Vol, own': Owners, pend': set<nat>, ino: nat, lb: nat)
    requires Shape(v) && Shape(v') && ino < MAX_INODES && lb < MAX_FILE_BLOCKS && Phys(v, ino, lb) == INVALID
    requires Linked(v, pend, v', own', pend', ino, Missing(v, ino, lb))
    requires NoHollow(v, {})
    ensures NoHollow(v', {})
  {
    hide Core, Ref, Tracked, SameBlocks, BitmapBlocks, SameFiles;
    forall t | ValidSlot(t) && IsTable(t.loc) && Ref(v', t) != INVALID
      ensures !Hollow(v', t)
    {
      if Ref(v, t) != INVALID {
        var i: nat :| i < POINTERS_PER_BLOCK && EntryUsed(v, t, i);
        assert EntryUsed(v', t, i);
      } else {
        assert t.ino == ino && t.loc in Missing(v, ino, lb);
        var below := if t.loc.Dbl? then Child(Outer(lb)) else Data(lb);
        HomeEntryLoc(below);
        assert Ref(v', Slot(ino, below)) != INVALID;
        assert EntryUsed(v', t, IndexIn(below));
      }
    }
  }

  // --------------------------------------------------- reserving free blocks

  /** From v to v', the free blocks in r were marked as used; nothing that was in use changed. */
  ghost predicate Reserved(v: Vol, v': Vol, r: set<nat>)
  {
    && Shape(v) && Shape(v')
    && Tracked(v, v')
    && v'.inodes == v.inodes && v'.freeInodes == v.freeInodes
    && v'.freeBlocks == |FreeSet(v')| == v.freeBlocks - |r|
    && (forall b :: b in r ==> InData(v, b) && !v.bitmap[b])
    && (forall b :: 0 <= b < |v.bitmap| ==> (v'.bitmap[b] <==> v.bitmap[b] || b in r))
    && (forall b :: 0 <= b < v.total && v.bitmap[b] ==> v'.disk[b] == v.disk[b])
  }

  lemma ReserveNone(v: Vol)
    requires Shape(v) && v.freeBlocks == |FreeSet(v)|
    ensures Reserved(v, v, {})
  {
  }

  lemma ReserveAlloc(v: Vol, v': Vol, r: set<nat>, b: nat)
    requires Reserved(v, v', r) && InData(v', b) && !Used(v', b)
    ensures v'.freeBlocks > 0 && Shape(SetBit(v', b)) && b !in r && Reserved(v, SetBit(v', b), r + {b})
  {
    hide BitmapBlocks, FreeSet, Mark;
    assert v'.total == v.total && v'.dataStart == v.dataStart;
    hide Tracked;
    SetBitFreeSet(v', b);
    MarkIs(v', b, true, v'.freeBlocks - 1);
    SetBitTracked(v', b);
    TrackedTransitive(v, v', SetBit(v', b));
  }

  lemma SetBitTracked(v: Vol, b: nat)
    requires Shape(v) && b < v.total && v.freeBlocks > 0
    ensures Shape(SetBit(v, b)) && Tracked(v, SetBit(v, b))
  {
  }

  lemma ClearBitTracked(v: Vol, b: nat)
    requires Shape(v) && b < v.total && v.freeBlocks < INVALID
    ensures Shape(ClearBit(v, b)) && Tracked(v, ClearBit(v, b))
  {
  }

  lemma ReserveFree(v: Vol, v': Vol, r: set<nat>, b: nat)
    requires Reserved(v, v', r) && b in r
    ensures Used(v', b) && v'.freeBlocks < INVALID
    ensures Shape(ClearBit(v', b)) && Reserved(v, ClearBit(v', b), r - {b})
  {
    hide BitmapBlocks, FreeSet, Mark;
    assert v'.total == v.total && v'.dataStart == v.dataStart;
    hide Tracked;
    ClearBitFreeSet(v', b);
    MarkIs(v', b, false, v'.freeBlocks + 1);
    ClearBitTracked(v', b);
    TrackedTransitive(v, v', ClearBit(v', b));
  }

  lemma ReserveWrite(v: Vol, v': Vol, r: set<nat>, b: nat, data: Sector)
    requires Reserved(v, v', r) && b in r
    ensures Reserved(v, PutBlock(v', b, data), r)
  {
    hide BitmapBlocks, BitmapSector;
    var w := PutBlock(v', b, data);
    assert FreeSet(w) == FreeSet(v');
    hide FreeSet;
  }

  /** Reserved blocks are pending; references and contents are as before. */
  lemma ReservedCore(v: Vol, v': Vol, own: Owners, r: set<nat>)
    requires Core(v, own, {}) && Reserved(v, v', r)
    ensures Core(v', own, r) && SameBlocks(v, v')
    ensures forall s :: ValidSlot(s) ==> Ref(v', s) == Ref(v, s)
  {
    assert TablesKept(v, v', own) && DataKept(v, v', own) by { hide Ref, RefsOwned, OwnersRefer, FreeSet, Tracked; }
    RefFrame(v, v', own, {});
    BlockFrame(v, v', own, {});
    ReservedOwners(v, v', own, r);
  }

  lemma ReservedOwners(v: Vol, v': Vol, own: Owners, r: set<nat>)
    requires Core(v, own, {}) && Reserved(v, v', r) && Shape(v) && Shape(v')
    requires forall s :: ValidSlot(s) ==> Ref(v', s) == Ref(v, s)
    ensures Core(v', own, r)
  {
    hide Ref, SameBlocks, BitmapBlocks;
    assert OwnersRefer(v', own, r) by { hide RefsOwned, FreeSet; }
    assert RefsOwned(v', own) by { hide OwnersRefer, FreeSet, BitsExact; }
    assert BitsExact(v', own, r) && PendingData(v', r) by { hide RefsOwned, OwnersRefer, FreeSet; }
  }

  // ------------------------------------------------------- the whole update

  /** The block maps of a volume are consistent: ownership, exact counts, no empty table. */
  ghost predicate Mapping(v: Vol, own: Owners)
  {
    Core(v, own, {}) && Counted(v) && NoHollow(v, {})
  }

  /** From v to v', exactly the missing slots of lb were filled, with blocks that were free. */
  ghost predicate Grown(v: Vol, v': Vol, own': Owners, ino: nat, lb: nat)
  {
    && Shape(v) && ino < MAX_INODES && lb < MAX_FILE_BLOCKS
    && Mapping(v', own')
    && (forall l :: l in Missing(v, ino, lb) ==> InData(v, Ref(v', Slot(ino, l))) && !Used(v, Ref(v', Slot(ino, l))))
    && (forall s :: ValidSlot(s) && !(s.ino == ino && s.loc in Missing(v, ino, lb)) ==> Ref(v', s) == Ref(v, s))
    && v'.freeBlocks == v.freeBlocks - |Missing(v, ino, lb)|
    && Tracked(v, v') && SameFiles(v, v', ino) && SameBlocks(v, v')
    && v'.inodes[ino].blockCount == v.inodes[ino].blockCount + 1
  }

  lemma MappedBound(v: Vol, ino: nat)
    requires |v.inodes| == MAX_INODES && ino < MAX_INODES
    ensures |Mapped(v, ino)| <= MAX_FILE_BLOCKS
  {
    hide Phys;
    SubsetSize(Mapped(v, ino), Interval(0, MAX_FILE_BLOCKS));
  }

  ghost function Bump(v: Vol, ino: nat): (v': Vol)
    requires ino < |v.inodes| && v.inodes[ino].blockCount < INVALID
  {
    v.(inodes := v.inodes[ino := v.inodes[ino].(blockCount := v.inodes[ino].blockCount + 1)])
  }

  /** Reserving, then linking, then counting the new block adds up to Grown. */
  lemma GrownFrom(v: Vol, own: Owners, vp: Vol, r: set<nat>, vl: Vol, own': Owners, ino: nat, lb: nat)
    requires Mapping(v, own) && Shape(v) && Shape(vp) && Shape(vl) && ino < MAX_INODES && lb < MAX_FILE_BLOCKS
    requires Phys(v, ino, lb) == INVALID
    requires Reserved(v, vp, r) && |r| == |Missing(v, ino, lb)|
    requires Linked(vp, r, vl, own', {}, ino, Missing(v, ino, lb))
    ensures vl.inodes[ino].blockCount < INVALID && Grown(v, Bump(vl, ino), own', ino, lb)
    ensures Phys(Bump(vl, ino), ino, lb) == Phys(vl, ino, lb)
  {
    hide Core, Ref, Tracked, SameBlocks, BitmapBlocks, Counted, NoHollow, Mapped;
    ReservedCore(v, vp, own, r);
    assert Missing(vp, ino, lb) == Missing(v, ino, lb);
    assert Counted(vp) && NoHollow(vp, {}) by { SameRefsCounted(v, vp); }
    LinkedMapped(vp, r, vl, own', {}, ino, lb);
    LinkedNoHollow(vp, r, vl, own', {}, ino, lb);
    BumpCounted(vp, vl, ino);
    BumpFrame(vl, own', ino);
    var v' := Bump(vl, ino);
    TrackedTransitive(v, vp, vl);
    TrackedTransitive(v, vl, v');
    SameBlocksTransitive(v, vp, vl);
    SameBlocksTransitive(v, vl, v');
    ReservedUnused(v, vp, r, vl, own', ino, lb);
  }

  lemma SameRefsCounted(v: Vol, v': Vol)
    requires Shape(v) && Shape(v') && v'.inodes == v.inodes && Counted(v) && NoHollow(v, {})
    requires forall s :: ValidSlot(s) ==> Ref(v', s) == Ref(v, s)
    ensures Counted(v') && NoHollow(v', {})
  {
    hide Ref, BitmapBlocks;
    forall ino | 0 <= ino < MAX_INODES
      ensures CountedAt(v', ino)
    {
      assert CountedAt(v, ino);
      assert Mapped(v', ino) == Mapped(v, ino);
    }
    SameRefsNoHollow(v, v', {});
  }

  lemma SameRefsNoHollow(v: Vol, v': Vol, except: set<Slot>)
    requires |v.inodes| == MAX_INODES == |v'.inodes| && NoHollow(v, except)
    requires forall s :: ValidSlot(s) ==> Ref(v', s) == Ref(v, s)
    ensures NoHollow(v', except)
  {
    hide Ref;
    forall t | ValidSlot(t) && IsTable(t.loc) && Ref(v', t) != INVALID && t !in except
      ensures !Hollow(v', t)
    {
      var i: nat :| i < POINTERS_PER_BLOCK && EntryUsed(v, t, i);
      assert EntryUsed(v', t, i);
    }
  }

  lemma BumpCounted(v: Vol, vl: Vol, ino: nat)
    requires Shape(v) && Shape(vl) && ino < MAX_INODES && Counted(v)
    requires vl.inodes[ino].blockCount == v.inodes[ino].blockCount && |Mapped(vl, ino)| == |Mapped(v, ino)| + 1
    requires forall i :: 0 <= i < MAX_INODES && i != ino ==>
              vl.inodes[i] == v.inodes[i] && Mapped(vl, i) == Mapped(v, i)
    ensures vl.inodes[ino].blockCount < INVALID && Counted(Bump(vl, ino))
  {
    hide Phys, Mapped, BitmapBlocks;
    assert CountedAt(v, ino);
    MappedBound(v, ino);
    var v' := Bump(vl, ino);
    forall i | 0 <= i < MAX_INODES
      ensures CountedAt(v', i)
    {
      assert CountedAt(v, i);
      BumpMapped(vl, ino, i);
    }
  }

  lemma BumpMapped(v: Vol, ino: nat, i: nat)
    requires |v.inodes| == MAX_INODES && ino < MAX_INODES && v.inodes[ino].blockCount < INVALID && i < MAX_INODES
    ensures Mapped(Bump(v, ino), i) == Mapped(v, i)
  {
    assert forall lb: nat :: lb < MAX_FILE_BLOCKS ==> Phys(Bump(v, ino), i, lb) == Phys(v, i, lb);
    hide Phys;
  }

  lemma BumpFrame(v: Vol, own: Owners, ino: nat)
    requires Core(v, own, {}) && Shape(v) && ino < MAX_INODES && v.inodes[ino].blockCount < INVALID
    requires NoHollow(v, {})
    ensures Shape(Bump(v, ino)) && Core(Bump(v, ino), own, {})
    ensures forall s :: ValidSlot(s) ==> Ref(Bump(v, ino), s) == Ref(v, s)
    ensures Tracked(v, Bump(v, ino)) && SameBlocks(v, Bump(v, ino)) && NoHollow(Bump(v, ino), {})
  {
    hide Core, Ref, NoHollow;
    CoreFrame(v, Bump(v, ino), own, {});
    SameRefsNoHollow(v, Bump(v, ino), {});
  }

  lemma ReservedUnused(v: Vol, vp: Vol, r: set<nat>, vl: Vol, own': Owners, ino: nat, lb: nat)
    requires Shape(v) && Shape(vp) && Shape(vl) && ino < MAX_INODES && lb < MAX_FILE_BLOCKS
    requires Reserved(v, vp, r) && Linked(vp, r, vl, own', {}, ino, Missing(v, ino, lb))
    ensures forall l :: l in Missing(v, ino, lb) ==> InData(v, Ref(vl, Slot(ino, l))) && !Used(v, Ref(vl, Slot(ino, l)))
  {
    hide Core, Ref, Tracked, SameBlocks, BitmapBlocks, FreeSet;
  }
}
