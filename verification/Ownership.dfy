/**
 * Block ownership. Every block that the bitmap marks as used is metadata, is held
 * by exactly one slot of one file, or is pending: allocated and not yet linked.
 */
module Ownership {
  import opened Base
  import opened Codec
  import opened FileMap

  type Owners = map<nat, Slot>

  predicate InData(v: Vol, b: int)
  {
    v.dataStart <= b < v.total
  }

  /** b is a data block that the bitmap marks as used. */
  predicate Used(v: Vol, b: int)
  {
    InData(v, b) && b < |v.bitmap| && v.bitmap[b]
  }

  /** The pointer table stored in block t. */
  function TableAt(v: Vol, t: nat): (p: Pointers)
  {
    if t < |v.disk| then DecodePointers(v.disk[t]) else NoPointers()
  }

  /** The data blocks that the bitmap marks as free. */
  ghost function FreeSet(v: Vol): (free: set<nat>)
  {
    set b | b in Interval(v.dataStart, v.total) && b < |v.bitmap| && !v.bitmap[b]
  }

  lemma SameFreeSet(v: Vol, v': Vol)
    requires v'.bitmap == v.bitmap && v'.total == v.total && v'.dataStart == v.dataStart
    ensures FreeSet(v') == FreeSet(v)
  {
  }

  /** Every owned block is a data block to which its owner refers. */
  ghost predicate OwnersRefer(v: Vol, own: Owners, pend: set<nat>)
    requires |v.inodes| == MAX_INODES
  {
    forall b :: b in own ==> InData(v, b) && b !in pend && ValidSlot(own[b]) && Ref(v, own[b]) == b
  }

  /** Every block referred to is owned by the slot that refers to it. */
  ghost predicate RefsOwned(v: Vol, own: Owners)
    requires |v.inodes| == MAX_INODES
  {
    forall s :: ValidSlot(s) && Ref(v, s) != INVALID ==> Ref(v, s) in own && own[Ref(v, s)] == s
  }

  ghost predicate PendingData(v: Vol, pend: set<nat>)
  {
    forall b :: b in pend ==> InData(v, b)
  }

  /** The bitmap marks metadata, owned and pending blocks and nothing else. */
  ghost predicate BitsExact(v: Vol, own: Owners, pend: set<nat>)
    requires |v.bitmap| >= v.total
  {
    forall b :: 0 <= b < v.total ==> (v.bitmap[b] <==> b < v.dataStart || b in own || b in pend)
  }

  /** The ownership invariant; own maps each block to the one slot that refers to it. */
  ghost predicate Core(v: Vol, own: Owners, pend: set<nat>)
  {
    && Shape(v)
    && v.freeBlocks == |FreeSet(v)|
    && OwnersRefer(v, own, pend)
    && RefsOwned(v, own)
    && PendingData(v, pend)
    && BitsExact(v, own, pend)
  }

  /** Conservation: free blocks, owned blocks and pending blocks make up the data area. */
  lemma Conservation(v: Vol, own: Owners, pend: set<nat>)
    requires Core(v, own, pend)
    ensures v.freeBlocks + |own| + |pend| == v.total - v.dataStart
  {
    hide *;
    DataAreaSplit(v, own, pend);
    ThreePartSize(FreeSet(v), own.Keys, pend);
    assert |own.Keys| == |own|;
  }

  lemma DataAreaSplit(v: Vol, own: Owners, pend: set<nat>)
    requires Core(v, own, pend)
    ensures |v.bitmap| >= v.total && v.dataStart < v.total && v.freeBlocks == |FreeSet(v)|
    ensures Interval(v.dataStart, v.total) == FreeSet(v) + own.Keys + pend
    ensures |Interval(v.dataStart, v.total)| == v.total - v.dataStart
    ensures FreeSet(v) !! own.Keys !! pend
  {
    hide Core, FreeSet, Interval;
    CoreSpace(v, own, pend);
    forall b: nat
      ensures b in Interval(v.dataStart, v.total) <==> b in FreeSet(v) || b in own || b in pend
      ensures !(b in FreeSet(v) && (b in own || b in pend)) && !(b in own && b in pend)
    {
      DataAreaAt(v, own, pend, b);
    }
  }

  lemma CoreSpace(v: Vol, own: Owners, pend: set<nat>)
    requires Core(v, own, pend)
    ensures |v.bitmap| >= v.total && v.dataStart < v.total && v.freeBlocks == |FreeSet(v)|
  {
    hide Ref, BitmapBlocks, RefsOwned, OwnersRefer, FreeSet, BitsExact;
  }

  lemma DataAreaAt(v: Vol, own: Owners, pend: set<nat>, b: nat)
    requires Core(v, own, pend)
    ensures b in Interval(v.dataStart, v.total) <==> b in FreeSet(v) || b in own || b in pend
    ensures !(b in FreeSet(v) && (b in own || b in pend)) && !(b in own && b in pend)
  {
    hide Ref, BitmapBlocks, Interval, RefsOwned;
  }

  lemma ThreePartSize(a: set<nat>, b: set<nat>, c: set<nat>)
    requires a !! b !! c
    ensures |a + b + c| == |a| + |b| + |c|
  {
    assert |a + b + c| == |a + b| + |c|;
  }

  /** No block has two owners. */
  lemma NoSharing(v: Vol, own: Owners, pend: set<nat>, s: Slot, t: Slot)
    requires Core(v, own, pend)
    requires ValidSlot(s) && ValidSlot(t) && Ref(v, s) == Ref(v, t) != INVALID
    ensures s == t
  {
    assert own[Ref(v, s)] == s;
  }

  // ------------------------------------------------- storing a block number

  ghost predicate Settable(v: Vol, pend: set<nat>, s: Slot, x: u32)
    requires |v.inodes| == MAX_INODES
  {
    && ValidSlot(s)
    && HasHome(v, s)
    && (x == INVALID || x in pend)
    && (IsTable(s.loc) ==> EmptyTable(v.disk, Ref(v, s)) && EmptyTable(v.disk, x))
  }

  lemma CoreShape(v: Vol, own: Owners, pend: set<nat>)
    requires Core(v, own, pend)
    ensures Shape(v) && |v.disk| < INVALID
  {
    hide Ref, BitmapBlocks;
  }

  lemma PendingNotOwned(v: Vol, own: Owners, pend: set<nat>, s: Slot, b: nat)
    requires Core(v, own, pend) && ValidSlot(s) && b in pend
    ensures Ref(v, s) != b
  {
  }

  lemma SetFieldRef(v: Vol, own: Owners, pend: set<nat>, s: Slot, x: u32, s': Slot)
    requires Core(v, own, pend) && Settable(v, pend, s, x) && ValidSlot(s') && Home(s.loc).None?
    ensures Ref(SetRef(v, s, x), s') == if s' == s then x else Ref(v, s')
  {
    hide Core;
    CoreShape(v, own, pend);
    assert s'.loc.Data? && SINGLE_END <= s'.loc.lb ==> Home(s'.loc) == Some(Child(Outer(s'.loc.lb)));
  }

  lemma SetChildRef(v: Vol, own: Owners, pend: set<nat>, s: Slot, x: u32, s': Slot)
    requires Core(v, own, pend) && Settable(v, pend, s, x) && ValidSlot(s') && s.loc.Child?
    ensures Ref(SetRef(v, s, x), s') == if s' == s then x else Ref(v, s')
    decreases s'.loc.Data?
  {
    hide Core;
    CoreShape(v, own, pend);
    var root := Slot(s.ino, Dbl);
    var t := Ref(v, root);
    if Home(s'.loc).Some? {
      var h := Slot(s'.ino, Home(s'.loc).value);
      var h' := Ref(SetRef(v, s, x), h);
      PutPtrAt(v.disk, t, s.loc.outer, x, h', IndexIn(s'.loc));
      if s'.loc.Child? {
        if h' == t { NoSharing(v, own, pend, h, root); }
      } else {
        SetChildRef(v, own, pend, s, x, h);
        if h != s && h' == t { NoSharing(v, own, pend, h, root); }
        if x != INVALID { PendingNotOwned(v, own, pend, root, x); }
      }
    }
  }

  lemma SetEntryRef(v: Vol, own: Owners, pend: set<nat>, s: Slot, x: u32, s': Slot)
    requires Core(v, own, pend) && Settable(v, pend, s, x) && ValidSlot(s') && s.loc.Data? && Home(s.loc).Some?
    ensures Ref(SetRef(v, s, x), s') == if s' == s then x else Ref(v, s')
    decreases s'.loc.Data?
  {
    hide Core;
    CoreShape(v, own, pend);
    var table := Slot(s.ino, Home(s.loc).value);
    var t := Ref(v, table);
    if Home(s'.loc).Some? {
      var h := Slot(s'.ino, Home(s'.loc).value);
      if s'.loc.Data? { SetEntryRef(v, own, pend, s, x, h); }
      PutPtrAt(v.disk, t, IndexIn(s.loc), x, Ref(v, h), IndexIn(s'.loc));
      if Ref(v, h) == t {
        NoSharing(v, own, pend, h, table);
        if IndexIn(s'.loc) == IndexIn(s.loc) { SameHomeSameIndex(s'.loc, s.loc); }
      }
    }
  }

  /** Storing into a slot is seen through that slot and through no other. */
  lemma SetRefGet(v: Vol, own: Owners, pend: set<nat>, s: Slot, x: u32)
    requires Core(v, own, pend) && Settable(v, pend, s, x)
    ensures Shape(SetRef(v, s, x))
    ensures forall s' :: ValidSlot(s') ==> Ref(SetRef(v, s, x), s') == if s' == s then x else Ref(v, s')
  {
    forall s' | ValidSlot(s')
      ensures Ref(SetRef(v, s, x), s') == if s' == s then x else Ref(v, s')
    {
      if Home(s.loc).None? {
        SetFieldRef(v, own, pend, s, x, s');
      } else if s.loc.Child? {
        SetChildRef(v, own, pend, s, x, s');
      } else {
        SetEntryRef(v, own, pend, s, x, s');
      }
    }
  }

  /** Linking a pending block into an empty slot makes the slot its owner. */
  lemma Attach(v: Vol, own: Owners, pend: set<nat>, s: Slot, b: u32)
    requires Core(v, own, pend) && Settable(v, pend, s, b) && b in pend && Ref(v, s) == INVALID
    ensures Core(SetRef(v, s, b), own[b := s], pend - {b})
    ensures forall s' :: ValidSlot(s') ==> Ref(SetRef(v, s, b), s') == if s' == s then b else Ref(v, s')
  {
    CoreShape(v, own, pend);
    SetRefGet(v, own, pend, s, b);
    var v' := SetRef(v, s, b);
    assert FreeSet(v') == FreeSet(v);
    AttachOwners(v, own, pend, s, b, v');
    AttachBits(v, own, pend, s, b, v');
  }

  lemma AttachOwners(v: Vol, own: Owners, pend: set<nat>, s: Slot, b: u32, v': Vol)
    requires Core(v, own, pend) && ValidSlot(s) && b in pend
    requires Shape(v') && v'.total == v.total && v'.dataStart == v.dataStart
    requires forall s' :: ValidSlot(s') ==> Ref(v', s') == if s' == s then b else Ref(v, s')
    requires Ref(v, s) == INVALID
    ensures OwnersRefer(v', own[b := s], pend - {b}) && RefsOwned(v', own[b := s])
  {
    hide Ref, BitmapBlocks, BitsExact, FreeSet;
  }

  lemma AttachBits(v: Vol, own: Owners, pend: set<nat>, s: Slot, b: u32, v': Vol)
    requires Core(v, own, pend) && b in pend
    requires Shape(v') && v'.total == v.total && v'.dataStart == v.dataStart && v'.bitmap == v.bitmap
    ensures BitsExact(v', own[b := s], pend - {b}) && PendingData(v', pend - {b})
  {
    hide Ref, FreeSet, OwnersRefer, RefsOwned, BitmapBlocks;
  }

  /** Clearing a slot turns the block it owned into a pending one. */
  lemma Detach(v: Vol, own: Owners, pend: set<nat>, s: Slot, b: u32)
    requires Core(v, own, pend) && Settable(v, pend, s, INVALID) && Ref(v, s) == b != INVALID
    ensures b in own && own[b] == s && Core(SetRef(v, s, INVALID), own - {b}, pend + {b})
    ensures forall s' :: ValidSlot(s') ==> Ref(SetRef(v, s, INVALID), s') == if s' == s then INVALID else Ref(v, s')
  {
    CoreShape(v, own, pend);
    SetRefGet(v, own, pend, s, INVALID);
    var v' := SetRef(v, s, INVALID);
    assert FreeSet(v') == FreeSet(v);
    DetachOwners(v, own, pend, s, b, v');
    DetachBits(v, own, pend, b, v');
  }

  lemma DetachOwners(v: Vol, own: Owners, pend: set<nat>, s: Slot, b: u32, v': Vol)
    requires Core(v, own, pend) && ValidSlot(s) && Ref(v, s) == b != INVALID
    requires Shape(v') && v'.total == v.total && v'.dataStart == v.dataStart
    requires forall s' :: ValidSlot(s') ==> Ref(v', s') == if s' == s then INVALID else Ref(v, s')
    ensures b in own && own[b] == s && InData(v, b)
    ensures OwnersRefer(v', own - {b}, pend + {b}) && RefsOwned(v', own - {b})
  {
    hide Ref, Shape, BitsExact, FreeSet;
  }

  lemma DetachBits(v: Vol, own: Owners, pend: set<nat>, b: u32, v': Vol)
    requires Core(v, own, pend) && b in own && InData(v, b)
    requires Shape(v') && v'.total == v.total && v'.dataStart == v.dataStart && v'.bitmap == v.bitmap
    ensures BitsExact(v', own - {b}, pend + {b}) && PendingData(v', pend + {b})
  {
    hide Ref, FreeSet, OwnersRefer, RefsOwned, BitmapBlocks;
  }

  // ------------------------------------------------------------- the bitmap

  /** The volume with no bitmap sector flagged dirty. */
  function CleanFlags(v: Vol): (v': Vol)
  {
    v.(dirty := seq(|v.dirty|, _ => false))
  }

  /** The bitmap sector that stores the bit of a block. */
  function BitmapSector(b: nat): (i: nat)
  {
    b / 8 / SECTOR_SIZE
  }

  /** The volume with the bit of block b and the free counter set, and the bit's sector flagged dirty. */
  function Mark(v: Vol, b: nat, used: bool, free: u32): (v': Vol)
  {
    if b < |v.bitmap| && BitmapSector(b) < |v.dirty| then
      v.(bitmap := v.bitmap[b := used], dirty := v.dirty[BitmapSector(b) := true], freeBlocks := free)
    else v
  }

  /** The volume with block b marked as used. */
  ghost function SetBit(v: Vol, b: nat): (v': Vol)
  {
    if v.freeBlocks > 0 then Mark(v, b, true, v.freeBlocks - 1) else v
  }

  /** The volume with block b marked as free. */
  ghost function ClearBit(v: Vol, b: nat): (v': Vol)
  {
    if v.freeBlocks < INVALID then Mark(v, b, false, v.freeBlocks + 1) else v
  }

  lemma MarkIs(v: Vol, b: nat, used: bool, free: u32)
    requires Shape(v) && b < v.total
    ensures Mark(v, b, used, free).bitmap == v.bitmap[b := used] && Mark(v, b, used, free).freeBlocks == free
    ensures Mark(v, b, used, free).disk == v.disk && Mark(v, b, used, free).inodes == v.inodes
    ensures Mark(v, b, used, free).total == v.total && Mark(v, b, used, free).dataStart == v.dataStart
    ensures Mark(v, b, used, free).freeInodes == v.freeInodes && Shape(Mark(v, b, used, free))
  {
  }

  lemma FreeSetBounds(v: Vol, b: nat)
    requires Shape(v) && InData(v, b)
    ensures !v.bitmap[b] ==> |FreeSet(v)| > 0
    ensures v.bitmap[b] ==> |FreeSet(v)| < v.total
  {
    var area := Interval(v.dataStart, v.total);
    if !v.bitmap[b] {
      assert b in FreeSet(v);
    } else {
      SubsetSize(FreeSet(v), area - {b});
    }
  }

  lemma SetBitFreeSet(v: Vol, b: nat)
    requires Shape(v) && InData(v, b) && !v.bitmap[b] && v.freeBlocks == |FreeSet(v)|
    ensures v.freeBlocks > 0 && Shape(SetBit(v, b))
    ensures SetBit(v, b).freeBlocks == |FreeSet(SetBit(v, b))|
  {
    FreeSetBounds(v, b);
    MarkIs(v, b, true, v.freeBlocks - 1);
    hide Mark, BitmapBlocks;
    assert FreeSet(SetBit(v, b)) == FreeSet(v) - {b};
    assert b in FreeSet(v);
  }

  lemma ClearBitFreeSet(v: Vol, b: nat)
    requires Shape(v) && InData(v, b) && v.bitmap[b] && v.freeBlocks == |FreeSet(v)|
    ensures v.freeBlocks < v.total && Shape(ClearBit(v, b))
    ensures ClearBit(v, b).freeBlocks == |FreeSet(ClearBit(v, b))|
  {
    FreeSetBounds(v, b);
    MarkIs(v, b, false, v.freeBlocks + 1);
    hide Mark, BitmapBlocks;
    assert FreeSet(ClearBit(v, b)) == FreeSet(v) + {b};
    assert b !in FreeSet(v);
  }

  /** Allocating a free block makes it pending. */
  lemma SetBitCore(v: Vol, own: Owners, pend: set<nat>, b: nat)
    requires Core(v, own, pend) && InData(v, b) && !v.bitmap[b]
    ensures v.freeBlocks > 0 && Core(SetBit(v, b), own, pend + {b})
    ensures b !in own && b !in pend
  {
    CoreShape(v, own, pend);
    SetBitFreeSet(v, b);
    SetBitExact(v, own, pend, b);
    var v' := SetBit(v, b);
    SameRefs(v, v', own, pend);
    assert OwnersRefer(v', own, pend + {b}) by { hide RefsOwned, BitsExact, FreeSet, Ref; }
  }

  lemma SetBitExact(v: Vol, own: Owners, pend: set<nat>, b: nat)
    requires Core(v, own, pend) && InData(v, b) && !v.bitmap[b] && v.freeBlocks > 0
    ensures b !in own && b !in pend
    ensures BitsExact(SetBit(v, b), own, pend + {b}) && PendingData(SetBit(v, b), pend + {b})
  {
    hide OwnersRefer, RefsOwned, FreeSet, Mark, BitmapBlocks;
    MarkIs(v, b, true, v.freeBlocks - 1);
  }

  /** Freeing a pending block. */
  lemma ClearBitCore(v: Vol, own: Owners, pend: set<nat>, b: nat)
    requires Core(v, own, pend) && b in pend
    ensures InData(v, b) && v.bitmap[b] && v.freeBlocks < v.total && Core(ClearBit(v, b), own, pend - {b})
  {
    CoreShape(v, own, pend);
    ClearBitFreeSet(v, b);
    ClearBitExact(v, own, pend, b);
    var v' := ClearBit(v, b);
    SameRefs(v, v', own, pend);
    assert OwnersRefer(v', own, pend - {b}) by { hide RefsOwned, BitsExact, FreeSet, Ref; }
  }

  lemma ClearBitExact(v: Vol, own: Owners, pend: set<nat>, b: nat)
    requires Core(v, own, pend) && b in pend && v.freeBlocks < INVALID
    ensures BitsExact(ClearBit(v, b), own, pend - {b}) && PendingData(ClearBit(v, b), pend - {b})
  {
    hide RefsOwned, FreeSet, Mark, BitmapBlocks, Ref;
    MarkIs(v, b, false, v.freeBlocks + 1);
  }

  /** References depend on the inodes and the disk only. */
  lemma SameRefs(v: Vol, v': Vol, own: Owners, pend: set<nat>)
    requires Shape(v) && Shape(v') && v'.inodes == v.inodes && v'.disk == v.disk
    requires v'.total == v.total && v'.dataStart == v.dataStart
    ensures forall s :: ValidSlot(s) ==> Ref(v', s) == Ref(v, s)
    ensures OwnersRefer(v, own, pend) ==> OwnersRefer(v', own, pend)
    ensures RefsOwned(v, own) ==> RefsOwned(v', own)
  {
    hide Get, Shape;
  }
}
