/** Unlinking blocks from a file: the state between two steps of a truncation. */
module Shrink {
  import opened Base
  import opened FileMap
  import opened Ownership
  import opened Frames
  import opened Growth
  import opened Bytes

  /**
   * From v0 to v, the logical blocks of file ino from nb up to cur were unlinked and freed. Tables
   * are as in v0, or were unlinked when empty; only tables in `except` may be left without an entry.
   */
  ghost predicate Cutting(v0: Vol, v: Vol, own: Owners, ino: nat, nb: nat, cur: nat, except: set<Slot>)
  {
    && ino < MAX_INODES
    && Core(v, own, {}) && Counted(v) && NoHollow(v, except)
    && Tracked(v0, v) && SameFiles(v0, v, ino) && OtherBlocks(v0, v, ino)
    && (forall s :: ValidSlot(s) && s.ino != ino ==> Ref(v, s) == Ref(v0, s))
    && (forall l :: ValidLoc(l) && IsTable(l) ==>
          Ref(v, Slot(ino, l)) == Ref(v0, Slot(ino, l)) || Ref(v, Slot(ino, l)) == INVALID)
    && (forall lb :: 0 <= lb < MAX_FILE_BLOCKS ==>
          Phys(v, ino, lb) == if nb <= lb < cur then INVALID else Phys(v0, ino, lb))
    && (forall lb :: 0 <= lb < MAX_FILE_BLOCKS ==>
          Block(v, ino, lb) == if nb <= lb < cur then ZeroSector() else Block(v0, ino, lb))
  }

  lemma CuttingShape(v0: Vol, v: Vol, own: Owners, ino: nat, nb: nat, cur: nat, except: set<Slot>)
    requires Cutting(v0, v, own, ino, nb, cur, except)
    ensures Shape(v0) && Shape(v) && |v.inodes| == MAX_INODES == |v0.inodes| && ino < MAX_INODES && Core(v, own, {})
    ensures Counted(v) && v.freeBlocks == |FreeSet(v)| && Tracked(v0, v)
  {
    hide Block, Phys, OwnersRefer, RefsOwned, BitsExact, NoHollow, SameFiles, OtherBlocks;
  }

  /** The volume after logical block lb of a file was unlinked, freed and no longer counted. */
  ghost function Dropped(v: Vol, ino: nat, lb: nat): (v': Vol)
    requires |v.inodes| == MAX_INODES && ino < MAX_INODES && lb < MAX_FILE_BLOCKS
  {
    if HasHome(v, Slot(ino, Data(lb))) && v.inodes[ino].blockCount > 0 then
      ClearBit(Uncount(SetRef(v, Slot(ino, Data(lb)), INVALID), ino), Phys(v, ino, lb))
    else v
  }

  /** One block less counted. */
  function Uncount(v: Vol, ino: nat): (v': Vol)
  {
    if ino < |v.inodes| && v.inodes[ino].blockCount > 0 then
      v.(inodes := v.inodes[ino := v.inodes[ino].(blockCount := v.inodes[ino].blockCount - 1)])
    else v
  }

  lemma UncountFrame(v: Vol, own: Owners, pend: set<nat>, ino: nat)
    requires Core(v, own, pend) && Shape(v) && ino < MAX_INODES
    ensures Shape(Uncount(v, ino)) && Core(Uncount(v, ino), own, pend)
    ensures forall s :: ValidSlot(s) ==> Ref(Uncount(v, ino), s) == Ref(v, s)
    ensures Tracked(v, Uncount(v, ino)) && SameBlocks(v, Uncount(v, ino))
  {
    hide Core, Ref;
    CoreFrame(v, Uncount(v, ino), own, pend);
    BlockFrame(v, Uncount(v, ino), own, pend);
  }

  lemma ClearBitFrame(v: Vol, own: Owners, pend: set<nat>, b: nat)
    requires Core(v, own, pend) && b in pend
    ensures Shape(v) && Used(v, b) && Shape(ClearBit(v, b)) && Core(ClearBit(v, b), own, pend - {b})
    ensures ClearBit(v, b).inodes == v.inodes && ClearBit(v, b).disk == v.disk
            && ClearBit(v, b).freeInodes == v.freeInodes
    ensures forall s :: ValidSlot(s) ==> Ref(ClearBit(v, b), s) == Ref(v, s)
    ensures Tracked(v, ClearBit(v, b)) && SameBlocks(v, ClearBit(v, b)) && ClearBit(v, b).freeBlocks == v.freeBlocks + 1
  {
    hide Ref, FreeSet, OwnersRefer, RefsOwned, BitsExact, BitmapBlocks;
    CoreShape(v, own, pend);
    ClearBitCore(v, own, pend, b);
    ClearBitTracked(v, b);
    MarkIs(v, b, false, v.freeBlocks + 1);
    SameRefs(v, ClearBit(v, b), own, pend);
    BlockFrame(v, ClearBit(v, b), own, pend);
  }

  /** Unlinking and freeing one data block. */
  lemma DropData(v: Vol, own: Owners, ino: nat, lb: nat)
    requires Core(v, own, {}) && Shape(v) && Counted(v) && ino < MAX_INODES && lb < MAX_FILE_BLOCKS
             && Phys(v, ino, lb) != INVALID
    ensures var v', b := Dropped(v, ino, lb), Phys(v, ino, lb);
            && Shape(v') && b in own && Core(v', own - {b}, {}) && Tracked(v, v') && SameFiles(v, v', ino)
            && v.inodes[ino].blockCount > 0 && v'.inodes[ino].blockCount == v.inodes[ino].blockCount - 1
            && (forall s :: ValidSlot(s) ==> Ref(v', s) == if s == Slot(ino, Data(lb)) then INVALID else Ref(v, s))
            && (forall i, l :: 0 <= i < MAX_INODES && 0 <= l < MAX_FILE_BLOCKS ==>
                  Block(v', i, l) == if i == ino && l == lb then ZeroSector() else Block(v, i, l))
  {
    hide Core, Counted, SetRef, Get, Tracked, ClearBit, Uncount, BitmapBlocks, EmptyTable, Load;
    var s, b := Slot(ino, Data(lb)), Phys(v, ino, lb);
    MappedHome(v, own, ino, lb);
    CountedPositive(v, ino, lb);
    var none: set<nat> := {};
    assert none + {b} == {b} && {b} - {b} == none;
    Detach(v, own, none, s, b);
    SetRefMeta(v, own, none, s, INVALID);
    var v1 := SetRef(v, s, INVALID);
    UncountFrame(v1, own - {b}, {b}, ino);
    var v2 := Uncount(v1, ino);
    UncountInode(v1, ino);
    ClearBitFrame(v2, own - {b}, {b}, b);
    var v3 := ClearBit(v2, b);
    TrackedTransitive(v, v1, v2);
    TrackedTransitive(v, v2, v3);
    DropBlocks(v, own, ino, lb, v3);
  }

  lemma UncountInode(v: Vol, ino: nat)
    requires |v.inodes| == MAX_INODES && ino < MAX_INODES && v.inodes[ino].blockCount > 0
    ensures Uncount(v, ino).inodes == v.inodes[ino := v.inodes[ino].(blockCount := v.inodes[ino].blockCount - 1)]
    ensures Uncount(v, ino).freeInodes == v.freeInodes
  {
  }

  lemma DropBlocks(v: Vol, own: Owners, ino: nat, lb: nat, v': Vol)
    requires Core(v, own, {}) && Settable(v, {}, Slot(ino, Data(lb)), INVALID) && Shape(v) && Shape(v')
    requires ino < MAX_INODES && lb < MAX_FILE_BLOCKS && |SetRef(v, Slot(ino, Data(lb)), INVALID).inodes| == MAX_INODES
    requires SameBlocks(SetRef(v, Slot(ino, Data(lb)), INVALID), v')
    ensures forall i, l :: 0 <= i < MAX_INODES && 0 <= l < MAX_FILE_BLOCKS ==>
              Block(v', i, l) == if i == ino && l == lb then ZeroSector() else Block(v, i, l)
  {
    hide Core, SetRef, EmptyTable, BitmapBlocks, Phys;
    CoreShape(v, own, {});
    forall i, l | 0 <= i < MAX_INODES && 0 <= l < MAX_FILE_BLOCKS
      ensures Block(v', i, l) == if i == ino && l == lb then ZeroSector() else Block(v, i, l)
    {
      SetRefBlock(v, own, {}, Slot(ino, Data(lb)), INVALID, i, l);
    }
  }

  lemma MappedHome(v: Vol, own: Owners, ino: nat, lb: nat)
    requires Core(v, own, {}) && Shape(v) && ino < MAX_INODES && lb < MAX_FILE_BLOCKS && Phys(v, ino, lb) != INVALID
    ensures HasHome(v, Slot(ino, Data(lb)))
  {
    hide Core, BitmapBlocks;
  }

  lemma CountedPositive(v: Vol, ino: nat, lb: nat)
    requires Shape(v) && Counted(v) && ino < MAX_INODES && lb < MAX_FILE_BLOCKS && Phys(v, ino, lb) != INVALID
    ensures v.inodes[ino].blockCount == |Mapped(v, ino)| && lb in Mapped(v, ino) && v.inodes[ino].blockCount > 0
  {
    hide Phys, BitmapBlocks;
    assert CountedAt(v, ino);
  }

  lemma DropCounted(v: Vol, ino: nat, lb: nat, v': Vol)
    requires Shape(v) && Shape(v') && Counted(v) && ino < MAX_INODES && lb < MAX_FILE_BLOCKS
             && Phys(v, ino, lb) != INVALID
    requires SameFiles(v, v', ino) && v.inodes[ino].blockCount > 0
             && v'.inodes[ino].blockCount == v.inodes[ino].blockCount - 1
    requires forall s :: ValidSlot(s) ==> Ref(v', s) == if s == Slot(ino, Data(lb)) then INVALID else Ref(v, s)
    ensures Counted(v')
  {
    hide Ref, BitmapBlocks;
    CountedPositive(v, ino, lb);
    forall i | 0 <= i < MAX_INODES
      ensures CountedAt(v', i)
    {
      assert CountedAt(v, i);
      if i == ino {
        assert Mapped(v', i) == Mapped(v, i) - {lb};
      } else {
        assert Mapped(v', i) == Mapped(v, i);
      }
    }
  }

  /** After clearing slot s, only the table that held it may have lost its last entry. */
  lemma ClearedNoHollow(v: Vol, s: Slot, v': Vol, except: set<Slot>)
    requires |v.inodes| == MAX_INODES == |v'.inodes| && ValidSlot(s) && NoHollow(v, except)
    requires forall t :: ValidSlot(t) ==> Ref(v', t) == if t == s then INVALID else Ref(v, t)
    requires Home(s.loc).Some? ==> Slot(s.ino, Home(s.loc).value) in except
    ensures NoHollow(v', except)
  {
    hide Ref;
    forall t | ValidSlot(t) && IsTable(t.loc) && Ref(v', t) != INVALID && t !in except
      ensures !Hollow(v', t)
    {
      var i: nat :| i < POINTERS_PER_BLOCK && EntryUsed(v, t, i);
      EntryLocHome(t.loc, i);
      assert EntryUsed(v', t, i);
    }
  }

  /** One turn of a cutting loop at a block to be dropped. */
  lemma CutDrop(v0: Vol, v: Vol, own: Owners, ino: nat, nb: nat, lb: nat, except: set<Slot>)
    requires Cutting(v0, v, own, ino, nb, lb, except) && Shape(v) && nb <= lb < MAX_FILE_BLOCKS && ino < MAX_INODES
    requires Phys(v, ino, lb) != INVALID
    requires Home(Data(lb)).Some? ==> Slot(ino, Home(Data(lb)).value) in except
    ensures Cutting(v0, Dropped(v, ino, lb), own - {Phys(v, ino, lb)}, ino, nb, lb + 1, except)
    ensures Phys(v, ino, lb) in own && Shape(Dropped(v, ino, lb)) && v.inodes[ino].blockCount > 0
    ensures forall s :: ValidSlot(s) ==>
              Ref(Dropped(v, ino, lb), s) == if s == Slot(ino, Data(lb)) then INVALID else Ref(v, s)
  {
    hide Core, Ref, Tracked, Block, Dropped, BitmapBlocks, NoHollow, Counted;
    CuttingShape(v0, v, own, ino, nb, lb, except);
    var v' := Dropped(v, ino, lb);
    DropData(v, own, ino, lb);
    DropCounted(v, ino, lb, v');
    ClearedNoHollow(v, Slot(ino, Data(lb)), v', except);
    TrackedTransitive(v0, v, v');
    CutDropRefs(v0, v, own, ino, nb, lb, except, v');
  }

  lemma CutDropRefs(v0: Vol, v: Vol, own: Owners, ino: nat, nb: nat, lb: nat, except: set<Slot>, v': Vol)
    requires Cutting(v0, v, own, ino, nb, lb, except) && Shape(v0) && Shape(v) && Shape(v') && ino < MAX_INODES
    requires nb <= lb < MAX_FILE_BLOCKS
    requires forall t :: ValidSlot(t) ==> Ref(v', t) == if t == Slot(ino, Data(lb)) then INVALID else Ref(v, t)
    requires forall i, l :: 0 <= i < MAX_INODES && 0 <= l < MAX_FILE_BLOCKS ==>
               Block(v', i, l) == if i == ino && l == lb then ZeroSector() else Block(v, i, l)
    ensures forall s :: ValidSlot(s) && s.ino != ino ==> Ref(v', s) == Ref(v0, s)
    ensures forall k :: ValidLoc(k) && IsTable(k) ==>
              Ref(v', Slot(ino, k)) == Ref(v0, Slot(ino, k)) || Ref(v', Slot(ino, k)) == INVALID
    ensures forall l :: 0 <= l < MAX_FILE_BLOCKS ==>
              Phys(v', ino, l) == if nb <= l < lb + 1 then INVALID else Phys(v0, ino, l)
    ensures forall l :: 0 <= l < MAX_FILE_BLOCKS ==>
              Block(v', ino, l) == if nb <= l < lb + 1 then ZeroSector() else Block(v0, ino, l)
    ensures OtherBlocks(v0, v', ino)
  {
    hide Core, Ref, Tracked, Block, BitmapBlocks, NoHollow, Counted, SameFiles;
    forall l | 0 <= l < MAX_FILE_BLOCKS
      ensures Phys(v', ino, l) == if l == lb then INVALID else Phys(v, ino, l)
    {
    }
  }

  /** One turn at a block that stays, or at a hole. */
  lemma CutKeep(v0: Vol, v: Vol, own: Owners, ino: nat, nb: nat, lb: nat, except: set<Slot>)
    requires Cutting(v0, v, own, ino, nb, lb, except) && Shape(v) && lb < MAX_FILE_BLOCKS && ino < MAX_INODES
    requires lb < nb || Phys(v, ino, lb) == INVALID
    ensures Cutting(v0, v, own, ino, nb, lb + 1, except)
  {
    hide Core, Ref, Tracked, BitmapBlocks, NoHollow, Counted, Load;
    HoleBlock(v, ino, lb);
  }

  lemma HoleBlock(v: Vol, ino: nat, lb: nat)
    requires Shape(v) && ino < MAX_INODES && lb < MAX_FILE_BLOCKS
    ensures Phys(v, ino, lb) == INVALID ==> Block(v, ino, lb) == ZeroSector()
  {
    hide Ref;
  }

  /** A stretch of holes can be skipped. */
  lemma CutSkip(v0: Vol, v: Vol, own: Owners, ino: nat, nb: nat, cur: nat, cur': nat, except: set<Slot>)
    requires Cutting(v0, v, own, ino, nb, cur, except) && Shape(v) && cur <= cur' <= MAX_FILE_BLOCKS && ino < MAX_INODES
    requires forall lb :: cur <= lb < cur' ==> Phys(v, ino, lb) == INVALID
    ensures Cutting(v0, v, own, ino, nb, cur', except)
  {
    hide Core, Ref, Tracked, BitmapBlocks, NoHollow, Counted, Load;
    forall lb | 0 <= lb < MAX_FILE_BLOCKS
      ensures Phys(v, ino, lb) == INVALID ==> Block(v, ino, lb) == ZeroSector()
    {
      HoleBlock(v, ino, lb);
    }
  }

  // ---------------------------------------------------------------- tables

  /** The volume after the empty table in slot s was unlinked and freed. */
  ghost function TableDropped(v: Vol, s: Slot): (v': Vol)
    requires |v.inodes| == MAX_INODES && ValidSlot(s)
  {
    if HasHome(v, s) then ClearBit(SetRef(v, s, INVALID), Ref(v, s)) else v
  }

  /** Unlinking and freeing an empty table. */
  lemma DropTable(v: Vol, own: Owners, s: Slot)
    requires Core(v, own, {}) && Shape(v) && ValidSlot(s) && IsTable(s.loc) && Ref(v, s) != INVALID
    requires HasHome(v, s) && EmptyTable(v.disk, Ref(v, s))
    ensures var v', b := TableDropped(v, s), Ref(v, s);
            && Shape(v') && b in own && Core(v', own - {b}, {}) && Tracked(v, v') && SameFiles(v, v', s.ino)
            && v'.inodes[s.ino].blockCount == v.inodes[s.ino].blockCount
            && (forall t :: ValidSlot(t) ==> Ref(v', t) == if t == s then INVALID else Ref(v, t))
            && SameBlocks(v, v') && v'.disk == SetRef(v, s, INVALID).disk
  {
    hide Core, Counted, SetRef, Get, Tracked, ClearBit, BitmapBlocks, SameBlocks;
    var b := Ref(v, s);
    InvalidIsEmpty(v);
    var none: set<nat> := {};
    assert none + {b} == {b} && {b} - {b} == none;
    Detach(v, own, none, s, b);
    SetRefMeta(v, own, none, s, INVALID);
    SetRefSameBlocks(v, own, none, s, INVALID);
    var v1 := SetRef(v, s, INVALID);
    ClearBitFrame(v1, own - {b}, {b}, b);
    TrackedTransitive(v, v1, ClearBit(v1, b));
    SameBlocksTransitive(v, v1, ClearBit(v1, b));
  }

  lemma InvalidIsEmpty(v: Vol)
    requires Shape(v)
    ensures EmptyTable(v.disk, INVALID)
  {
  }

  /** Cutting goes on after an empty table was dropped; its own table may now be empty. */
  lemma CutTable(v0: Vol, v: Vol, own: Owners, ino: nat, nb: nat, cur: nat, l: Loc, except: set<Slot>)
    requires Cutting(v0, v, own, ino, nb, cur, except) && Shape(v) && ino < MAX_INODES
    requires ValidLoc(l) && IsTable(l) && Ref(v, Slot(ino, l)) != INVALID && HasHome(v, Slot(ino, l))
    requires EmptyTable(v.disk, Ref(v, Slot(ino, l)))
    requires Home(l).Some? ==> Slot(ino, Home(l).value) in except
    ensures Ref(v, Slot(ino, l)) in own
    ensures Cutting(v0, TableDropped(v, Slot(ino, l)), own - {Ref(v, Slot(ino, l))}, ino, nb, cur,
            except - {Slot(ino, l)})
    ensures Shape(TableDropped(v, Slot(ino, l)))
    ensures forall t :: ValidSlot(t) ==>
              Ref(TableDropped(v, Slot(ino, l)), t) == if t == Slot(ino, l) then INVALID else Ref(v, t)
  {
    hide Core, Get, Tracked, Block, TableDropped, BitmapBlocks, NoHollow, Counted, EmptyTable;
    CuttingShape(v0, v, own, ino, nb, cur, except);
    var s := Slot(ino, l);
    var v' := TableDropped(v, s);
    DropTable(v, own, s);
    TableCounted(v, s, v');
    DroppedNoHollow(v, s, v', except);
    TrackedTransitive(v0, v, v');
    CutTableRefs(v0, v, own, ino, nb, cur, l, except, v');
  }

  lemma CutTableRefs(v0: Vol, v: Vol, own: Owners, ino: nat, nb: nat, cur: nat, l: Loc, except: set<Slot>, v': Vol)
    requires Cutting(v0, v, own, ino, nb, cur, except) && Shape(v0) && Shape(v) && Shape(v') && ino < MAX_INODES
    requires ValidLoc(l) && IsTable(l)
    requires forall t :: ValidSlot(t) ==> Ref(v', t) == if t == Slot(ino, l) then INVALID else Ref(v, t)
    requires SameBlocks(v, v')
    ensures forall s :: ValidSlot(s) && s.ino != ino ==> Ref(v', s) == Ref(v0, s)
    ensures forall k :: ValidLoc(k) && IsTable(k) ==>
              Ref(v', Slot(ino, k)) == Ref(v0, Slot(ino, k)) || Ref(v', Slot(ino, k)) == INVALID
    ensures forall lb :: 0 <= lb < MAX_FILE_BLOCKS ==>
              Phys(v', ino, lb) == if nb <= lb < cur then INVALID else Phys(v0, ino, lb)
    ensures forall lb :: 0 <= lb < MAX_FILE_BLOCKS ==>
              Block(v', ino, lb) == if nb <= lb < cur then ZeroSector() else Block(v0, ino, lb)
    ensures OtherBlocks(v0, v', ino)
  {
    hide Core, Ref, Tracked, Block, BitmapBlocks, NoHollow, Counted, SameFiles;
    forall lb | 0 <= lb < MAX_FILE_BLOCKS
      ensures Phys(v', ino, lb) == Phys(v, ino, lb) && Block(v', ino, lb) == Block(v, ino, lb)
    {
    }
  }

  lemma TableCounted(v: Vol, s: Slot, v': Vol)
    requires Shape(v) && Shape(v') && Counted(v) && ValidSlot(s) && IsTable(s.loc)
    requires SameFiles(v, v', s.ino) && v'.inodes[s.ino].blockCount == v.inodes[s.ino].blockCount
    requires forall t :: ValidSlot(t) ==> Ref(v', t) == if t == s then INVALID else Ref(v, t)
    ensures Counted(v')
  {
    hide Ref, BitmapBlocks;
    forall i | 0 <= i < MAX_INODES
      ensures CountedAt(v', i)
    {
      assert CountedAt(v, i);
      assert Mapped(v', i) == Mapped(v, i);
    }
  }

  lemma DroppedNoHollow(v: Vol, s: Slot, v': Vol, except: set<Slot>)
    requires |v.inodes| == MAX_INODES == |v'.inodes| && ValidSlot(s) && IsTable(s.loc) && NoHollow(v, except)
    requires forall t :: ValidSlot(t) ==> Ref(v', t) == if t == s then INVALID else Ref(v, t)
    requires Home(s.loc).Some? ==> Slot(s.ino, Home(s.loc).value) in except
    ensures NoHollow(v', except - {s})
  {
    hide Ref;
    ClearedNoHollow(v, s, v', except);
  }

  /** A table that has an entry needs no exception. */
  lemma CutKeepTable(v0: Vol, v: Vol, own: Owners, ino: nat, nb: nat, cur: nat, l: Loc, except: set<Slot>)
    requires Cutting(v0, v, own, ino, nb, cur, except) && Shape(v) && ino < MAX_INODES && ValidLoc(l) && IsTable(l)
    requires !EmptyTable(v.disk, Ref(v, Slot(ino, l)))
    ensures Cutting(v0, v, own, ino, nb, cur, except - {Slot(ino, l)})
  {
    hide Core, Ref, Tracked, Block, BitmapBlocks, Counted, Phys;
    HollowIsEmpty(v, Slot(ino, l));
  }

  /** Anything may be excepted. */
  lemma CutExcept(v0: Vol, v: Vol, own: Owners, ino: nat, nb: nat, cur: nat, except: set<Slot>, except': set<Slot>)
    requires Cutting(v0, v, own, ino, nb, cur, except) && except <= except'
    ensures Cutting(v0, v, own, ino, nb, cur, except')
  {
    hide Core, Ref, Tracked, Block, BitmapBlocks, Counted, Hollow;
  }

  /** Contents of blocks nobody owns do not matter. */
  lemma CutGarbage(v0: Vol, v: Vol, own: Owners, ino: nat, nb: nat, cur: nat, except: set<Slot>, v': Vol)
    requires Cutting(v0, v, own, ino, nb, cur, except) && Shape(v) && Shape(v')
    requires v' == v.(disk := v'.disk)
    requires forall b :: 0 <= b < |v.disk| && (b in own || b < v.dataStart) ==> v'.disk[b] == v.disk[b]
    ensures Cutting(v0, v', own, ino, nb, cur, except)
  {
    hide Core, Ref, Block, BitmapBlocks, NoHollow;
    CuttingShape(v0, v, own, ino, nb, cur, except);
    CoreFrame(v, v', own, {});
    BlockFrame(v, v', own, {});
    SameRefsNoHollow(v, v', except);
    assert Tracked(v, v');
    TrackedTransitive(v0, v, v');
    assert SameBlocks(v, v') && OtherBlocks(v0, v', ino);
    forall l | 0 <= l < MAX_FILE_BLOCKS
      ensures Phys(v', ino, l) == Phys(v, ino, l)
    {
    }
    forall i | 0 <= i < MAX_INODES
      ensures CountedAt(v', i)
    {
      assert CountedAt(v, i);
      assert Mapped(v', i) == Mapped(v, i);
    }
  }
}
