/** truncate_file_blocks and denyfs_vol_truncate. */
module Truncate {
  import opened Base
  import opened Codec
  import opened FileMap
  import opened Ownership
  import opened Frames
  import opened Growth
  import opened Shrink
  import opened Volume
  import opened BlockMap

  // ------------------------------------------ tables held in local variables

  /** v is p with some blocks already rewritten, as the caller's local copies of them will be. */
  ghost predicate Shadow(p: Vol, v: Vol, blocks: set<nat>)
  {
    && Shape(p) && Shape(v) && v == p.(disk := v.disk)
    && (forall k :: 0 <= k < p.total && k !in blocks ==> v.disk[k] == p.disk[k])
    && (forall k :: k in blocks ==> InData(p, k))
  }

  lemma ShadowFacts(v0: Vol, p: Vol, v: Vol, own: Owners, ino: nat, nb: nat, cur: nat, except: set<Slot>,
                    blocks: set<nat>)
    requires Shadow(p, v, blocks) && Cutting(v0, v, own, ino, nb, cur, except)
    ensures p.freeBlocks == |FreeSet(p)| && Tracked(v0, p) && p.inodes == v.inodes && ino < MAX_INODES
    ensures Shape(v0) && Shape(v) && Shape(p) && |v.inodes| == MAX_INODES == |v0.inodes| && p.total == v.total
  {
    hide FreeSet, BitmapBlocks, Core, Phys, Block;
    CuttingShape(v0, v, own, ino, nb, cur, except);
    SameFreeSet(p, v);
  }

  /** The table in slot (ino, t) is in block tb and holds these pointers, whose entries map blocks from `first` on. */
  ghost predicate Holds(v: Vol, ino: nat, t: Loc, tb: nat, pointers: Pointers, first: nat)
  {
    && Shape(v) && ino < MAX_INODES && ValidLoc(t) && (t.Ind? || t.Child?)
    && EntryLoc(t, 0) == Data(first) && Ref(v, Slot(ino, t)) == tb && tb < v.total
    && v.disk[tb] == EncodePointers(pointers)
  }

  lemma HoldsEntry(v: Vol, ino: nat, t: Loc, tb: nat, pointers: Pointers, first: nat, i: nat)
    requires Holds(v, ino, t, tb, pointers, first) && i < POINTERS_PER_BLOCK
    ensures ino < MAX_INODES && |v.inodes| == MAX_INODES && first + i < MAX_FILE_BLOCKS
    ensures Phys(v, ino, first + i) == pointers[i] && Home(Data(first + i)) == Some(t) && IndexIn(Data(first + i)) == i
  {
    hide BitmapBlocks, EncodePointers;
    EntryLocHome(t, i);
    PointersRoundTrip(pointers);
    RefViaHome(v, Slot(ino, Data(first + i)));
  }

  /** Dropping entry i in the shadow is what freeing its block, clearing the local entry and uncounting do. */
  lemma EntryDropped(p: Vol, v: Vol, ino: nat, t: Loc, tb: nat, pointers: Pointers, first: nat, i: nat,
                     blocks: set<nat>)
    requires Shadow(p, v, blocks) && tb in blocks && Holds(v, ino, t, tb, pointers, first) && i < POINTERS_PER_BLOCK
    requires v.inodes[ino].blockCount > 0 && v.freeBlocks < INVALID && pointers[i] < v.total
             && first + i < MAX_FILE_BLOCKS
    requires Ref(Dropped(v, ino, first + i), Slot(ino, t)) == tb
    ensures ino < MAX_INODES && |p.inodes| == MAX_INODES && first + i < MAX_FILE_BLOCKS && |v.inodes| == MAX_INODES
    ensures var p', v' := Uncount(ClearBit(p, pointers[i]), ino), Dropped(v, ino, first + i);
            Shadow(p', v', blocks) && Holds(v', ino, t, tb, pointers[i := INVALID], first)
            && v'.disk == PutBlock(v, tb, EncodePointers(pointers[i := INVALID])).disk && p'.disk == p.disk
  {
    hide BitmapBlocks, EncodePointers, DecodePointers, BitmapSector, Get;
    HoldsEntry(v, ino, t, tb, pointers, first, i);
    PointersRoundTrip(pointers);
    DroppedIs(v, ino, t, tb, pointers, first + i, i);
    MarkIs(p, pointers[i], false, p.freeBlocks + 1);
    MarkIs(v, pointers[i], false, v.freeBlocks + 1);
  }

  lemma DroppedIs(v: Vol, ino: nat, t: Loc, tb: nat, pointers: Pointers, lb: nat, i: nat)
    requires ino < MAX_INODES == |v.inodes| && tb < |v.disk| && ValidLoc(t) && lb < MAX_FILE_BLOCKS
    requires i < POINTERS_PER_BLOCK && Home(Data(lb)) == Some(t) && IndexIn(Data(lb)) == i
    requires Ref(v, Slot(ino, t)) == tb && v.disk[tb] == EncodePointers(pointers) && v.inodes[ino].blockCount > 0
    requires Phys(v, ino, lb) == pointers[i] && DecodePointers(EncodePointers(pointers)) == pointers
    ensures Dropped(v, ino, lb) ==
            ClearBit(Uncount(v.(disk := v.disk[tb := EncodePointers(pointers[i := INVALID])]), ino), pointers[i])
  {
    hide EncodePointers, DecodePointers, BitmapSector, ClearBit, Uncount;
  }

  /** The state inside a cutting loop: the shadow v of the volume p has been cut up to cur. */
  ghost predicate CutState(v0: Vol, p: Vol, v: Vol, own: Owners, ino: nat, nb: nat, cur: nat, except: set<Slot>,
                           blocks: set<nat>)
  {
    Shadow(p, v, blocks) && Cutting(v0, v, own, ino, nb, cur, except)
  }

  lemma CutStateFacts(v0: Vol, p: Vol, v: Vol, own: Owners, ino: nat, nb: nat, cur: nat, except: set<Slot>,
                      blocks: set<nat>)
    requires CutState(v0, p, v, own, ino, nb, cur, except, blocks)
    ensures p.freeBlocks == |FreeSet(p)| && Tracked(v0, p) && p.inodes == v.inodes && ino < MAX_INODES
    ensures Shape(v0) && Shape(v) && Shape(p) && |v.inodes| == MAX_INODES == |v0.inodes|
            && p.total == v.total == |v.disk| == |p.disk|
    ensures Core(v, own, {}) && p.dataStart == v.dataStart && p.total < INVALID && p.freeBlocks < INVALID
  {
    hide Cutting, Core, FreeSet, BitmapBlocks;
    FreeBound(p);
    ShadowFacts(v0, p, v, own, ino, nb, cur, except, blocks);
    CuttingShape(v0, v, own, ino, nb, cur, except);
  }

  lemma FreeBound(v: Vol)
    ensures |FreeSet(v)| <= v.total
  {
    SubsetSize(FreeSet(v), Interval(v.dataStart, v.total));
  }

  /** One turn of a cutting loop at entry i, which holds x; `cleared` is the table without that entry. */
  lemma EntryTurn(v0: Vol, p: Vol, v: Vol, own: Owners, ino: nat, nb: nat, t: Loc, tb: nat, pointers: Pointers,
                  first: nat, i: nat, x: u32, cleared: Pointers, except: set<Slot>, blocks: set<nat>)
    returns (v': Vol, own': Owners)
    requires i < POINTERS_PER_BLOCK && pointers[i] == x != INVALID && cleared == pointers[i := INVALID]
    requires first + i >= nb && tb in blocks && Slot(ino, t) in except
    requires Holds(v, ino, t, tb, pointers, first)
    requires CutState(v0, p, v, own, ino, nb, first + i, except, blocks)
    ensures Used(p, x) && p.freeBlocks == |FreeSet(p)| && Countable(p, ino)
    ensures CutState(v0, Uncount(ClearBit(p, x), ino), v', own', ino, nb, first + i + 1, except, blocks)
    ensures Uncount(ClearBit(p, x), ino).disk == p.disk && ClearBit(p, x).inodes == p.inodes
    ensures Holds(v', ino, t, tb, cleared, first)
    ensures v'.disk == PutBlock(v, tb, EncodePointers(cleared)).disk
  {
    hide Cutting, Shadow, Core, FreeSet, BitmapBlocks, ClearBit, Dropped, Holds;
    CutStateFacts(v0, p, v, own, ino, nb, first + i, except, blocks);
    HoldsShape(v, ino, t, tb, pointers, first);
    HoldsEntry(v, ino, t, tb, pointers, first, i);
    RefInUse(v, own, Slot(ino, Data(first + i)));
    ShadowUsed(p, v, blocks, x);
    CutDrop(v0, v, own, ino, nb, first + i, except);
    v', own' := Dropped(v, ino, first + i), own - {Phys(v, ino, first + i)};
    EntryDropped(p, v, ino, t, tb, pointers, first, i, blocks);
    MarkIs(p, x, false, p.freeBlocks + 1);
    ClearBitInodes(p, x);
  }

  /** Some block of the file is counted. */
  predicate Countable(v: Vol, ino: nat)
  {
    ino < MAX_INODES == |v.inodes| && v.inodes[ino].blockCount > 0
  }

  lemma HoldsShape(v: Vol, ino: nat, t: Loc, tb: nat, pointers: Pointers, first: nat)
    requires Holds(v, ino, t, tb, pointers, first)
    ensures Shape(v) && ino < MAX_INODES && ValidLoc(t) && IsTable(t) && Ref(v, Slot(ino, t)) == tb
            && tb < v.total == |v.disk|
    ensures first + POINTERS_PER_BLOCK <= MAX_FILE_BLOCKS
  {
    hide EncodePointers, BitmapBlocks;
    EntryLocHome(t, POINTERS_PER_BLOCK - 1);
  }

  lemma ClearBitInodes(v: Vol, b: nat)
    ensures ClearBit(v, b).inodes == v.inodes && ClearBit(v, b).disk == v.disk
  {
  }

  lemma ShadowUsed(p: Vol, v: Vol, blocks: set<nat>, b: nat)
    requires Shadow(p, v, blocks) && Used(v, b)
    ensures Used(p, b) && b < p.total == v.total && p.freeBlocks == v.freeBlocks && p.inodes == v.inodes && Shape(p)
    ensures b < INVALID
  {
    hide BitmapBlocks;
  }

  /** free_block on one table entry that lies past the cut, uncounting it. */
  method CutEntry(vol: DenyVolume, ino: nat, lb: nat, x: u32)
    requires vol.Valid() && Countable(vol.View(), ino) && Used(vol.View(), x)
             && vol.View().freeBlocks == |FreeSet(vol.View())|
    requires ClearBit(vol.View(), x).inodes == vol.View().inodes
    modifies vol.Footprint()
    ensures vol.Valid() && vol.View() == Uncount(ClearBit(old(vol.View()), x), ino)
  {
    hide *;
    CountableFacts(vol.View(), ino);
    vol.FreeBlock(x);
    UncountIs(vol.View(), ino);
    var inode := vol.Node(ino);
    vol.PutInode(ino, inode.(blockCount := inode.blockCount - 1));
  }

  lemma CountableFacts(v: Vol, ino: nat)
    requires Countable(v, ino)
    ensures ino < MAX_INODES == |v.inodes| && v.inodes[ino].blockCount > 0
  {
  }

  lemma UncountIs(v: Vol, ino: nat)
    ensures ino < |v.inodes| && v.inodes[ino].blockCount > 0 ==>
              Uncount(v, ino) == WithInode(v, ino, v.inodes[ino].(blockCount := v.inodes[ino].blockCount - 1))
  {
  }

  /** The loop over the entries of one table: frees and clears those from nb on, and counts what remains. */
  method CutEntries(vol: DenyVolume, ino: nat, table: Pointers, first: nat, nb: nat, ghost v0: Vol, ghost v: Vol,
                    ghost own: Owners,
                    ghost t: Loc, ghost tb: nat, ghost except: set<Slot>, ghost blocks: set<nat>)
    returns (pointers: Pointers, remaining: nat, ghost v': Vol, ghost own': Owners)
    requires vol.Valid() && CutState(v0, vol.View(), v, own, ino, nb, first, except, blocks)
    requires tb in blocks && Slot(ino, t) in except && Holds(v, ino, t, tb, table, first)
    modifies vol.Footprint()
    ensures vol.Valid() && CutState(v0, vol.View(), v', own', ino, nb, first + POINTERS_PER_BLOCK, except, blocks)
    ensures Holds(v', ino, t, tb, pointers, first) && vol.View().disk == old(vol.View()).disk
    ensures v'.disk == PutBlock(v, tb, EncodePointers(pointers)).disk
    ensures remaining == 0 <==> (forall j :: 0 <= j < POINTERS_PER_BLOCK ==> pointers[j] == INVALID)
  {
    hide *;
    pointers, remaining, v', own' := table, 0, v, own;
    HoldsShape(v, ino, t, tb, table, first);
    HoldsDisk(v, ino, t, tb, table, first);
    ghost var disk := vol.View().disk;
    var i := 0;
    while i < POINTERS_PER_BLOCK
      invariant i <= POINTERS_PER_BLOCK
      invariant vol.Valid() && CutState(v0, vol.View(), v', own', ino, nb, first + i, except, blocks)
      invariant Holds(v', ino, t, tb, pointers, first) && v'.disk == PutBlock(v, tb, EncodePointers(pointers)).disk
      invariant vol.View().disk == disk
      invariant remaining == 0 <==> (forall j :: 0 <= j < i ==> pointers[j] == INVALID)
    {
      if first + i >= nb && pointers[i] != INVALID {
        ghost var v1, own1 := EntryTurn(v0, vol.View(), v', own', ino, nb, t, tb, pointers, first, i,
                                             pointers[i], pointers[i := INVALID], except, blocks);
        PutTwice(v, v', tb, EncodePointers(pointers), EncodePointers(pointers[i := INVALID]));
        CutEntry(vol, ino, first + i, pointers[i]);
        ghost var before := pointers;
        pointers := pointers[i := INVALID];
        assert forall j :: 0 <= j < i ==> pointers[j] == before[j];
        v', own' := v1, own1;
      } else {
        EntryKept(v0, vol.View(), v', own', ino, nb, t, tb, pointers, first, i, except, blocks);
      }
      if pointers[i] != INVALID {
        remaining := remaining + 1;
      }
      i := i + 1;
    }
  }

  lemma PutTwice(v: Vol, v': Vol, b: nat, x: Sector, y: Sector)
    requires v'.disk == PutBlock(v, b, x).disk
    ensures PutBlock(v', b, y).disk == PutBlock(v, b, y).disk
  {
  }

  lemma HoldsDisk(v: Vol, ino: nat, t: Loc, tb: nat, pointers: Pointers, first: nat)
    requires Holds(v, ino, t, tb, pointers, first)
    ensures v.disk == PutBlock(v, tb, EncodePointers(pointers)).disk && |pointers| == POINTERS_PER_BLOCK
  {
    hide EncodePointers, BitmapBlocks;
  }

  lemma EntryKept(v0: Vol, p: Vol, v: Vol, own: Owners, ino: nat, nb: nat, t: Loc, tb: nat, pointers: Pointers,
                  first: nat, i: nat, except: set<Slot>, blocks: set<nat>)
    requires CutState(v0, p, v, own, ino, nb, first + i, except, blocks) && i < POINTERS_PER_BLOCK
    requires Holds(v, ino, t, tb, pointers, first)
    requires !(first + i >= nb && pointers[i] != INVALID)
    ensures CutState(v0, p, v, own, ino, nb, first + i + 1, except, blocks)
  {
    hide Cutting, Shadow, Core, BitmapBlocks, Holds;
    CutStateFacts(v0, p, v, own, ino, nb, first + i, except, blocks);
    HoldsEntry(v, ino, t, tb, pointers, first, i);
    CutKeep(v0, v, own, ino, nb, first + i, except);
  }

  // ------------------------------------------------- finishing with a table

  /** Writing a local table back takes its block out of the shadow. */
  lemma ShadowWrite(v0: Vol, p: Vol, v: Vol, own: Owners, ino: nat, nb: nat, cur: nat, except: set<Slot>,
                    blocks: set<nat>, b: nat)
    requires CutState(v0, p, v, own, ino, nb, cur, except, blocks) && b in blocks
    ensures b < |v.disk| && CutState(v0, PutBlock(p, b, v.disk[b]), v, own, ino, nb, cur, except, blocks - {b})
  {
    hide Cutting, BitmapBlocks;
  }

  lemma ShadowEnd(v0: Vol, p: Vol, v: Vol, own: Owners, ino: nat, nb: nat, cur: nat, except: set<Slot>)
    requires CutState(v0, p, v, own, ino, nb, cur, except, {})
    ensures p == v && Cutting(v0, p, own, ino, nb, cur, except)
  {
    hide Cutting, BitmapBlocks;
    assert v.disk == p.disk;
  }

  /** A block that nobody owns any more leaves the shadow with whatever contents it has. */
  lemma ShadowForget(v0: Vol, p: Vol, v: Vol, own: Owners, ino: nat, nb: nat, cur: nat, except: set<Slot>,
                     blocks: set<nat>, b: nat)
    returns (v': Vol)
    requires CutState(v0, p, v, own, ino, nb, cur, except, blocks) && b in blocks && b !in own
    ensures v' == PutBlock(v, b, Load(p.disk, b)) && CutState(v0, p, v', own, ino, nb, cur, except, blocks - {b})
    ensures b < p.total == v.total == |v.disk| && |v.inodes| == MAX_INODES == |v'.inodes|
    ensures forall s :: ValidSlot(s) ==> Ref(v', s) == Ref(v, s)
  {
    hide Cutting, BitmapBlocks, Core, Ref;
    CutStateFacts(v0, p, v, own, ino, nb, cur, except, blocks);
    v' := PutBlock(v, b, Load(p.disk, b));
    CutGarbage(v0, v, own, ino, nb, cur, except, v');
    RefFrame(v, v', own, {});
  }

  /** An empty table that an inode refers to is unlinked and freed. */
  lemma DropRooted(v0: Vol, p: Vol, v: Vol, own: Owners, ino: nat, nb: nat, cur: nat, l: Loc, tb: u32)
    returns (own': Owners)
    requires (l == Ind || l == Dbl) && CutState(v0, p, v, own, ino, nb, cur, {Slot(ino, l)}, {tb})
    requires ino < MAX_INODES == |v.inodes| && Ref(v, Slot(ino, l)) == tb && tb < v.total && EmptyTable(v.disk, tb)
    ensures Used(p, tb) && p.freeBlocks == |FreeSet(p)| && ino < |p.inodes| && ClearBit(p, tb).inodes == p.inodes
    ensures Cutting(v0, WithInode(ClearBit(p, tb), ino, SetField(p.inodes[ino], l, INVALID)), own', ino, nb, cur, {})
  {
    hide Cutting, BitmapBlocks, Core, Get, FreeSet, ClearBit, EmptyTable;
    var s := Slot(ino, l);
    CutStateFacts(v0, p, v, own, ino, nb, cur, {s}, {tb});
    RefInUse(v, own, s);
    ShadowUsed(p, v, {tb}, tb);
    CutTable(v0, v, own, ino, nb, cur, l, {s});
    own' := own - {tb};
    var v2, p2 := TableDropped(v, s), WithInode(ClearBit(p, tb), ino, SetField(p.inodes[ino], l, INVALID));
    ClearBitInodes(p, tb);
    DropRootedShadow(p, v, ino, l, tb);
    assert {s} - {s} == {};
    var v3 := ShadowForget(v0, p2, v2, own', ino, nb, cur, {}, {tb}, tb);
    assert {tb} - {tb} == {};
    ShadowEnd(v0, p2, v3, own', ino, nb, cur, {});
  }

  lemma DropRootedShadow(p: Vol, v: Vol, ino: nat, l: Loc, tb: u32)
    requires (l == Ind || l == Dbl) && Shadow(p, v, {tb}) && ino < MAX_INODES && Ref(v, Slot(ino, l)) == tb
             && tb < v.total
    requires v.freeBlocks < INVALID && Shape(v)
    ensures ino < |p.inodes|
    ensures Shadow(WithInode(ClearBit(p, tb), ino, SetField(p.inodes[ino], l, INVALID)), TableDropped(v, Slot(ino, l)),
            {tb})
  {
    hide BitmapBlocks, BitmapSector;
    MarkIs(p, tb, false, p.freeBlocks + 1);
    MarkIs(v, tb, false, v.freeBlocks + 1);
  }

  /** A block of a truncation stays inside the data area, so failures leave metadata alone. */
  lemma ShadowTracked(v0: Vol, p: Vol, v: Vol, own: Owners, ino: nat, nb: nat, cur: nat, except: set<Slot>,
                      blocks: set<nat>)
    requires CutState(v0, p, v, own, ino, nb, cur, except, blocks)
    ensures Tracked(v0, p)
  {
    hide Cutting, Shadow, Core, FreeSet;
    CutStateFacts(v0, p, v, own, ino, nb, cur, except, blocks);
  }

  // ----------------------------------------------------------- direct blocks

  lemma DirectTurn(v0: Vol, v: Vol, own: Owners, ino: nat, nb: nat, i: nat)
    requires Cutting(v0, v, own, ino, nb, i, {}) && i < DIRECT_BLOCKS
    ensures ino < MAX_INODES == |v.inodes| && Tracked(v0, v)
    ensures i < nb || v.inodes[ino].direct[i] == INVALID ==> Cutting(v0, v, own, ino, nb, i + 1, {})
    ensures i >= nb && v.inodes[ino].direct[i] != INVALID ==>
              var b := v.inodes[ino].direct[i];
              && Used(v, b) && v.freeBlocks == |FreeSet(v)| && Countable(v, ino)
              && ClearBit(v, b).inodes == v.inodes
              && Cutting(v0, WithInode(ClearBit(v, b), ino, DirectCut(v.inodes[ino], i)), own - {b}, ino, nb, i + 1, {})
  {
    hide Cutting, BitmapBlocks, Core, FreeSet, BitmapSector;
    CuttingShape(v0, v, own, ino, nb, i, {});
    assert Phys(v, ino, i) == v.inodes[ino].direct[i];
    if i < nb || v.inodes[ino].direct[i] == INVALID {
      CutKeep(v0, v, own, ino, nb, i, {});
    } else {
      var b := v.inodes[ino].direct[i];
      RefInUse(v, own, Slot(ino, Data(i)));
      FreeBound(v);
      CutDrop(v0, v, own, ino, nb, i, {});
      MarkIs(v, b, false, v.freeBlocks + 1);
      DirectDropped(v, ino, i);
    }
  }

  /** The inode without direct block i. */
  function DirectCut(n: Inode, i: nat): (n': Inode)
    requires i < DIRECT_BLOCKS
  {
    if n.blockCount > 0 then n.(direct := n.direct[i := INVALID], blockCount := n.blockCount - 1) else n
  }

  lemma DirectDropped(v: Vol, ino: nat, i: nat)
    requires Shape(v) && ino < MAX_INODES && i < DIRECT_BLOCKS && v.inodes[ino].blockCount > 0
    ensures Dropped(v, ino, i) == WithInode(ClearBit(v, v.inodes[ino].direct[i]), ino, DirectCut(v.inodes[ino], i))
  {
    hide BitmapBlocks, BitmapSector;
  }

  method CutDirect(vol: DenyVolume, ino: nat, nb: nat, ghost v0: Vol, ghost own: Owners) returns (ghost own': Owners)
    requires vol.Valid() && ino < MAX_INODES && Cutting(v0, vol.View(), own, ino, nb, 0, {})
    modifies vol.Footprint()
    ensures vol.Valid() && Cutting(v0, vol.View(), own', ino, nb, DIRECT_BLOCKS, {})
  {
    hide *;
    own' := own;
    var i := 0;
    while i < DIRECT_BLOCKS
      invariant i <= DIRECT_BLOCKS
      invariant vol.Valid() && Cutting(v0, vol.View(), own', ino, nb, i, {})
    {
      DirectTurn(v0, vol.View(), own', ino, nb, i);
      var inode := vol.Node(ino);
      DirectBounds(inode, i);
      if i >= nb && inode.direct[i] != INVALID {
        vol.FreeBlock(inode.direct[i]);
        vol.PutInode(ino, DirectCut(inode, i));
        own' := own' - {inode.direct[i]};
      }
      i := i + 1;
    }
  }

  lemma DirectBounds(n: Inode, i: nat)
    ensures |n.direct| == DIRECT_BLOCKS
  {
  }

  // ------------------------------------------------------ the single level

  lemma SingleStart(v0: Vol, v: Vol, own: Owners, ino: nat, nb: nat) returns (t: u32)
    requires Cutting(v0, v, own, ino, nb, DIRECT_BLOCKS, {})
    ensures Tracked(v0, v) && ino < MAX_INODES == |v.inodes| && t == v.inodes[ino].indirect
    ensures t == INVALID ==> Cutting(v0, v, own, ino, nb, SINGLE_END, {})
    ensures t != INVALID ==> Used(v, t) && t < v.total && Holds(v, ino, Ind, t, TableAt(v, t), DIRECT_BLOCKS)
    ensures t != INVALID ==> CutState(v0, v, v, own, ino, nb, DIRECT_BLOCKS, {Slot(ino, Ind)}, {t})
  {
    hide Cutting, BitmapBlocks, Core, FreeSet, EncodePointers, DecodePointers;
    CuttingShape(v0, v, own, ino, nb, DIRECT_BLOCKS, {});
    t := v.inodes[ino].indirect;
    assert Ref(v, Slot(ino, Ind)) == t;
    if t == INVALID {
      CutSkip(v0, v, own, ino, nb, DIRECT_BLOCKS, SINGLE_END, {});
    } else {
      RefInUse(v, own, Slot(ino, Ind));
      SectorRoundTrip(v.disk[t]);
      CutExcept(v0, v, own, ino, nb, DIRECT_BLOCKS, {}, {Slot(ino, Ind)});
    }
  }

  lemma TableEmptyOrNot(v: Vol, ino: nat, t: Loc, tb: nat, pointers: Pointers, first: nat)
    requires Holds(v, ino, t, tb, pointers, first)
    ensures EmptyTable(v.disk, tb) <==> (forall j :: 0 <= j < POINTERS_PER_BLOCK ==> pointers[j] == INVALID)
  {
    hide BitmapBlocks, EncodePointers;
    PointersRoundTrip(pointers);
    forall j | 0 <= j < POINTERS_PER_BLOCK
      ensures At(v.disk, tb, j) == pointers[j]
    {
    }
  }

  /** The kept table of a stage is written back. */
  lemma KeepRooted(v0: Vol, p: Vol, v: Vol, own: Owners, ino: nat, nb: nat, cur: nat, l: Loc, tb: u32, data: Sector)
    requires (l == Ind || l == Dbl) && CutState(v0, p, v, own, ino, nb, cur, {Slot(ino, l)}, {tb})
    requires ino < MAX_INODES == |v.inodes| && Ref(v, Slot(ino, l)) == tb && tb < v.total && !EmptyTable(v.disk, tb)
    requires tb < |v.disk| && v.disk[tb] == data
    ensures Cutting(v0, PutBlock(p, tb, data), own, ino, nb, cur, {})
  {
    hide Cutting, BitmapBlocks, Core, Get, FreeSet, EmptyTable;
    CutStateFacts(v0, p, v, own, ino, nb, cur, {Slot(ino, l)}, {tb});
    CutKeepTable(v0, v, own, ino, nb, cur, l, {Slot(ino, l)});
    assert {Slot(ino, l)} - {Slot(ino, l)} == {};
    ShadowWrite(v0, p, v, own, ino, nb, cur, {}, {tb}, tb);
    assert {tb} - {tb} == {};
    ShadowEnd(v0, PutBlock(p, tb, data), v, own, ino, nb, cur, {});
  }

  method CutSingle(vol: DenyVolume, ino: nat, nb: nat, ghost v0: Vol, ghost own: Owners)
    returns (st: Status, ghost own': Owners)
    requires vol.Valid() && ino < MAX_INODES && Cutting(v0, vol.View(), own, ino, nb, DIRECT_BLOCKS, {})
    modifies vol.Footprint()
    ensures vol.Valid() && Tracked(v0, vol.View())
    ensures st == OK ==> Cutting(v0, vol.View(), own', ino, nb, SINGLE_END, {})
    ensures st == OK || st == EIO
    ensures vol.Reliable() ==> st == OK
  {
    hide *;
    own' := own;
    ghost var t := SingleStart(v0, vol.View(), own, ino, nb);
    var table := vol.Node(ino).indirect;
    if table == INVALID {
      st := OK;
      return;
    }
    var ok, pointers := ReadPointerTable(vol, table);
    if !ok {
      st := EIO;
      return;
    }
    ghost var v;
    var remaining;
    pointers, remaining, v, own' :=
      CutEntries(vol, ino, pointers, DIRECT_BLOCKS, nb, v0, vol.View(), own, Ind, table, {Slot(ino, Ind)}, {table});
    SingleBounds();
    TableEmptyOrNot(v, ino, Ind, table, pointers, DIRECT_BLOCKS);
    HoldsTable(v, ino, Ind, table, pointers, DIRECT_BLOCKS);
    st, own' := FinishRooted(vol, ino, Ind, table, EncodePointers(pointers), remaining == 0, nb, SINGLE_END, v0, v,
        own');
  }

  lemma HoldsTable(v: Vol, ino: nat, t: Loc, tb: nat, pointers: Pointers, first: nat)
    requires Holds(v, ino, t, tb, pointers, first)
    ensures TableIs(v, ino, t, tb, EncodePointers(pointers))
  {
    hide EncodePointers;
  }

  lemma SingleBounds()
    ensures DIRECT_BLOCKS + POINTERS_PER_BLOCK == SINGLE_END
  {
  }

  /** Frees a table that has become empty, or writes it back. */
  method FinishRooted(vol: DenyVolume, ino: nat, l: Loc, table: u32, data: Sector, empty: bool, nb: nat, cur: nat,
                      ghost v0: Vol, ghost v: Vol, ghost own: Owners)
    returns (st: Status, ghost own': Owners)
    requires vol.Valid() && (l == Ind || l == Dbl)
    requires CutState(v0, vol.View(), v, own, ino, nb, cur, {Slot(ino, l)}, {table})
    requires TableIs(v, ino, l, table, data)
    requires empty <==> EmptyTable(v.disk, table)
    modifies vol.Footprint()
    ensures vol.Valid() && Tracked(v0, vol.View())
    ensures st == OK ==> Cutting(v0, vol.View(), own', ino, nb, cur, {})
    ensures st == OK || st == EIO
    ensures vol.Reliable() ==> st == OK
  {
    hide *;
    ghost var p := vol.View();
    CutStateFacts(v0, p, v, own, ino, nb, cur, {Slot(ino, l)}, {table});
    TableIsFacts(v, ino, l, table, data);
    own' := own;
    if empty {
      own' := DropRooted(v0, p, v, own, ino, nb, cur, l, table);
      HomeOfRooted(l);
      vol.FreeBlock(table);
      var inode := vol.Node(ino);
      vol.PutInode(ino, SetField(inode, l, INVALID));
      CuttingTracked(v0, vol.View(), own', ino, nb, cur);
      st := OK;
    } else {
      KeepRooted(v0, p, v, own, ino, nb, cur, l, table, data);
      CuttingTracked(v0, PutBlock(p, table, data), own, ino, nb, cur);
      st := vol.WriteBlock(table, data);
      if st != OK {
        st := EIO;
      }
    }
  }

  /** Slot l of a file refers to block tb, which holds data. */
  ghost predicate TableIs(v: Vol, ino: nat, l: Loc, tb: nat, data: Sector)
  {
    Shape(v) && ino < MAX_INODES && ValidLoc(l) && Ref(v, Slot(ino, l)) == tb && tb < v.total && v.disk[tb] == data
  }

  lemma TableIsFacts(v: Vol, ino: nat, l: Loc, tb: nat, data: Sector)
    requires TableIs(v, ino, l, tb, data)
    ensures |v.inodes| == MAX_INODES && ino < MAX_INODES && ValidSlot(Slot(ino, l)) && Ref(v, Slot(ino, l)) == tb
    ensures tb < v.total == |v.disk| && v.disk[tb] == data
  {
  }

  lemma HomeOfRooted(l: Loc)
    requires l == Ind || l == Dbl
    ensures ValidLoc(l) && Home(l).None?
  {
  }

  lemma CuttingTracked(v0: Vol, v: Vol, own: Owners, ino: nat, nb: nat, cur: nat)
    requires Cutting(v0, v, own, ino, nb, cur, {})
    ensures Tracked(v0, v)
  {
    hide Tracked, Core, Counted, NoHollow, Block, Phys;
  }

  // ------------------------------------------------------ the double level

  lemma ChildStart(v0: Vol, p: Vol, v: Vol, own: Owners, ino: nat, nb: nat, o: nat, r: u32, roots: Pointers)
    requires o < POINTERS_PER_BLOCK && TableIs(v, ino, Dbl, r, EncodePointers(roots))
    requires CutState(v0, p, v, own, ino, nb, DoubleBlock(o, 0), {Slot(ino, Dbl)}, {r})
    ensures roots[o] == INVALID ==> CutState(v0, p, v, own, ino, nb, DoubleBlock(o + 1, 0), {Slot(ino, Dbl)}, {r})
    ensures roots[o] != INVALID ==>
              && Used(p, roots[o]) && roots[o] != r && roots[o] < p.total
              && Holds(v, ino, Child(o), roots[o], TableAt(p, roots[o]), DoubleBlock(o, 0))
              && CutState(v0, p, v, own, ino, nb, DoubleBlock(o, 0), {Slot(ino, Dbl), Slot(ino, Child(o))},
                  {r, roots[o]})
  {
    hide Cutting, BitmapBlocks, Core, FreeSet, EncodePointers, DecodePointers, Outer, Inner, DoubleBlock;
    CutStateFacts(v0, p, v, own, ino, nb, DoubleBlock(o, 0), {Slot(ino, Dbl)}, {r});
    TableIsFacts(v, ino, Dbl, r, EncodePointers(roots));
    var c := roots[o];
    PointersRoundTrip(roots);
    RefViaHome(v, Slot(ino, Child(o)));
    assert Ref(v, Slot(ino, Child(o))) == c;
    DoubleBounds(o);
    if c == INVALID {
      ChildHoles(v, ino, o);
      CutSkip(v0, v, own, ino, nb, DoubleBlock(o, 0), DoubleBlock(o + 1, 0), {Slot(ino, Dbl)});
    } else {
      RefInUse(v, own, Slot(ino, Child(o)));
      if c == r { NoSharing(v, own, {}, Slot(ino, Child(o)), Slot(ino, Dbl)); }
      ShadowUsed(p, v, {r}, c);
      SectorRoundTrip(v.disk[c]);
      CutExcept(v0, v, own, ino, nb, DoubleBlock(o, 0), {Slot(ino, Dbl)}, {Slot(ino, Dbl), Slot(ino, Child(o))});
    }
  }

  lemma DoubleBounds(o: nat)
    requires o < POINTERS_PER_BLOCK
    ensures DoubleBlock(o, 0) <= DoubleBlock(o + 1, 0) == DoubleBlock(o, 0) + POINTERS_PER_BLOCK <= MAX_FILE_BLOCKS
    ensures DoubleBlock(POINTERS_PER_BLOCK, 0) == MAX_FILE_BLOCKS && DoubleBlock(0, 0) == SINGLE_END
  {
  }

  lemma ChildHoles(v: Vol, ino: nat, o: nat)
    requires Shape(v) && ino < MAX_INODES && o < POINTERS_PER_BLOCK && Ref(v, Slot(ino, Child(o))) == INVALID
    ensures forall lb :: DoubleBlock(o, 0) <= lb < DoubleBlock(o + 1, 0) && lb < MAX_FILE_BLOCKS ==>
              Phys(v, ino, lb) == INVALID
  {
    hide BitmapBlocks, Ptr;
    forall lb | DoubleBlock(o, 0) <= lb < DoubleBlock(o + 1, 0) && lb < MAX_FILE_BLOCKS
      ensures Phys(v, ino, lb) == INVALID
    {
      DoubleSplit(o, lb - DoubleBlock(o, 0));
      assert Outer(lb) == o;
    }
  }

  /** While a child is linked, its root stays where it was. */
  lemma RootStays(v0: Vol, v: Vol, own: Owners, v': Vol, own': Owners, ino: nat, nb: nat, cur: nat, cur': nat,
                  except: set<Slot>, except': set<Slot>, o: nat, r: u32)
    requires Cutting(v0, v, own, ino, nb, cur, except) && Cutting(v0, v', own', ino, nb, cur', except')
    requires o < POINTERS_PER_BLOCK && Shape(v) && Shape(v') && ino < MAX_INODES
    requires Ref(v, Slot(ino, Dbl)) == r && r < v.total && Ref(v', Slot(ino, Child(o))) != INVALID
    ensures Ref(v', Slot(ino, Dbl)) == r
  {
    hide Core, Tracked, Block, Counted, NoHollow, Ptr, BitmapBlocks;
  }

  /** The child table has lost its last entry: it is freed and its entry in the local root cleared. */
  lemma ChildDropped(v0: Vol, p: Vol, v: Vol, own: Owners, ino: nat, nb: nat, cur: nat, o: nat, r: u32,
                     roots: Pointers, c: u32)
    returns (v': Vol, own': Owners)
    requires o < POINTERS_PER_BLOCK && c != r
    requires TableIs(v, ino, Dbl, r, EncodePointers(roots)) && EmptyTable(v.disk, c)
             && Ref(v, Slot(ino, Child(o))) == c && c < v.total
    requires CutState(v0, p, v, own, ino, nb, cur, {Slot(ino, Dbl), Slot(ino, Child(o))}, {r, c})
    ensures Used(p, c) && p.freeBlocks == |FreeSet(p)|
    ensures CutState(v0, ClearBit(p, c), v', own', ino, nb, cur, {Slot(ino, Dbl)}, {r})
    ensures TableIs(v', ino, Dbl, r, EncodePointers(roots[o := INVALID]))
  {
    hide Cutting, BitmapBlocks, Core, FreeSet, EncodePointers, DecodePointers, EmptyTable, ClearBit, Get, TableDropped,
         Shadow, TableIs;
    var ds, cs := Slot(ino, Dbl), Slot(ino, Child(o));
    CutStateFacts(v0, p, v, own, ino, nb, cur, {ds, cs}, {r, c});
    TableIsFacts(v, ino, Dbl, r, EncodePointers(roots));
    RefInUse(v, own, cs);
    ShadowUsed(p, v, {r, c}, c);
    CutTable(v0, v, own, ino, nb, cur, Child(o), {ds, cs});
    var v2 := TableDropped(v, cs);
    own' := own - {c};
    ChildDroppedShadow(p, v, ino, o, r, roots, c);
    assert {ds, cs} - {cs} == {ds};
    v' := ShadowForget(v0, ClearBit(p, c), v2, own', ino, nb, cur, {ds}, {r, c}, c);
    assert {r, c} - {c} == {r};
    ChildDroppedRoot(v2, v', ino, r, EncodePointers(roots[o := INVALID]), c, Load(ClearBit(p, c).disk, c));
  }

  lemma ChildDroppedRoot(v2: Vol, v': Vol, ino: nat, r: nat, data: Sector, c: nat, garbage: Sector)
    requires TableIs(v2, ino, Dbl, r, data) && v' == PutBlock(v2, c, garbage) && c != r
    ensures TableIs(v', ino, Dbl, r, data)
  {
    hide BitmapBlocks;
  }

  lemma ChildDroppedShadow(p: Vol, v: Vol, ino: nat, o: nat, r: u32, roots: Pointers, c: u32)
    requires o < POINTERS_PER_BLOCK && TableIs(v, ino, Dbl, r, EncodePointers(roots)) && Shadow(p, v, {r, c}) && c != r
    requires Ref(v, Slot(ino, Child(o))) == c && c < v.total && v.freeBlocks < INVALID
    ensures Shadow(ClearBit(p, c), TableDropped(v, Slot(ino, Child(o))), {r, c})
    ensures TableIs(TableDropped(v, Slot(ino, Child(o))), ino, Dbl, r, EncodePointers(roots[o := INVALID]))
  {
    hide BitmapBlocks, BitmapSector, EncodePointers, DecodePointers;
    PointersRoundTrip(roots);
    MarkIs(p, c, false, p.freeBlocks + 1);
    var v1 := SetRef(v, Slot(ino, Child(o)), INVALID);
    assert v1.disk == v.disk[r := EncodePointers(roots[o := INVALID])];
    MarkIs(v1, c, false, v1.freeBlocks + 1);
  }

  /** The child table keeps an entry: it is written back. */
  lemma ChildKept(v0: Vol, p: Vol, v: Vol, own: Owners, ino: nat, nb: nat, cur: nat, o: nat, r: u32, c: u32,
                  data: Sector)
    requires o < POINTERS_PER_BLOCK && c != r && ino < MAX_INODES == |v.inodes|
    requires !EmptyTable(v.disk, c) && Ref(v, Slot(ino, Child(o))) == c && c < v.total == |v.disk| && v.disk[c] == data
    requires CutState(v0, p, v, own, ino, nb, cur, {Slot(ino, Dbl), Slot(ino, Child(o))}, {r, c})
    ensures CutState(v0, PutBlock(p, c, data), v, own, ino, nb, cur, {Slot(ino, Dbl)}, {r})
    ensures c < p.total && Tracked(v0, p) && Tracked(v0, PutBlock(p, c, data))
  {
    hide Cutting, BitmapBlocks, Core, FreeSet, EmptyTable, Get, Shadow;
    var ds, cs := Slot(ino, Dbl), Slot(ino, Child(o));
    CutStateFacts(v0, p, v, own, ino, nb, cur, {ds, cs}, {r, c});
    CutKeepTable(v0, v, own, ino, nb, cur, Child(o), {ds, cs});
    assert {ds, cs} - {cs} == {ds};
    ShadowWrite(v0, p, v, own, ino, nb, cur, {ds}, {r, c}, c);
    assert {r, c} - {c} == {r};
    CutStateFacts(v0, PutBlock(p, c, data), v, own, ino, nb, cur, {ds}, {r});
  }

  /** After the entries of child o were cut: what its block and the root's block hold. */
  lemma ChildCut(v0: Vol, p: Vol, v: Vol, own: Owners, p': Vol, v': Vol, own': Owners, ino: nat, nb: nat, o: nat,
                 r: u32, roots: Pointers,
                 c: u32, pointers: Pointers, except: set<Slot>, except': set<Slot>, blocks: set<nat>, blocks': set<nat>)
    requires o < POINTERS_PER_BLOCK && c != r && c != INVALID && TableIs(v, ino, Dbl, r, EncodePointers(roots))
    requires CutState(v0, p, v, own, ino, nb, DoubleBlock(o, 0), except, blocks)
    requires CutState(v0, p', v', own', ino, nb, DoubleBlock(o, 0) + POINTERS_PER_BLOCK, except', blocks')
    requires Holds(v', ino, Child(o), c, pointers, DoubleBlock(o, 0))
             && v'.disk == PutBlock(v, c, EncodePointers(pointers)).disk
    ensures DoubleBlock(o, 0) + POINTERS_PER_BLOCK == DoubleBlock(o + 1, 0)
    ensures TableIs(v', ino, Dbl, r, EncodePointers(roots)) && TableIs(v', ino, Child(o), c, EncodePointers(pointers))
    ensures EmptyTable(v'.disk, c) <==> (forall j :: 0 <= j < POINTERS_PER_BLOCK ==> pointers[j] == INVALID)
  {
    hide Cutting, BitmapBlocks, Core, FreeSet, EncodePointers, EmptyTable, Shadow, Get;
    DoubleBounds(o);
    CutStateFacts(v0, p, v, own, ino, nb, DoubleBlock(o, 0), except, blocks);
    CutStateFacts(v0, p', v', own', ino, nb, DoubleBlock(o, 0) + POINTERS_PER_BLOCK, except', blocks');
    TableEmptyOrNot(v', ino, Child(o), c, pointers, DoubleBlock(o, 0));
    HoldsTable(v', ino, Child(o), c, pointers, DoubleBlock(o, 0));
    RootStays(v0, v, own, v', own', ino, nb, DoubleBlock(o, 0), DoubleBlock(o, 0) + POINTERS_PER_BLOCK, except,
        except', o, r);
  }

  /** One turn of the loop over the children of the double-indirect root. */
  method CutChild(vol: DenyVolume, ino: nat, nb: nat, o: nat, root: u32, table: Pointers, ghost v0: Vol, ghost v: Vol,
                  ghost own: Owners)
    returns (st: Status, roots: Pointers, ghost v': Vol, ghost own': Owners)
    requires vol.Valid() && o < POINTERS_PER_BLOCK && TableIs(v, ino, Dbl, root, EncodePointers(table))
    requires CutState(v0, vol.View(), v, own, ino, nb, DoubleBlock(o, 0), {Slot(ino, Dbl)}, {root})
    modifies vol.Footprint()
    ensures vol.Valid() && Tracked(v0, vol.View())
    ensures st == OK ==> CutState(v0, vol.View(), v', own', ino, nb, DoubleBlock(o + 1, 0), {Slot(ino, Dbl)}, {root})
    ensures st == OK ==> TableIs(v', ino, Dbl, root, EncodePointers(roots))
    ensures roots == table[o := roots[o]]
    ensures st == OK || st == EIO
    ensures vol.Reliable() ==> st == OK
  {
    hide *;
    roots, v', own' := table, v, own;
    CutStateFacts(v0, vol.View(), v, own, ino, nb, DoubleBlock(o, 0), {Slot(ino, Dbl)}, {root});
    ChildStart(v0, vol.View(), v, own, ino, nb, o, root, table);
    var child := table[o];
    if child == INVALID {
      st := OK;
      return;
    }
    var ok, pointers := ReadPointerTable(vol, child);
    if !ok {
      st := EIO;
      return;
    }
    st, roots, v', own' := CutLinkedChild(vol, ino, nb, o, root, table, child, pointers, v0, v, own);
  }

  method CutLinkedChild(vol: DenyVolume, ino: nat, nb: nat, o: nat, root: u32, table: Pointers, child: u32,
                        entries: Pointers,
                        ghost v0: Vol, ghost v: Vol, ghost own: Owners)
    returns (st: Status, roots: Pointers, ghost v': Vol, ghost own': Owners)
    requires vol.Valid() && o < POINTERS_PER_BLOCK && TableIs(v, ino, Dbl, root, EncodePointers(table))
    requires child != root && child != INVALID && child == table[o]
    requires Holds(v, ino, Child(o), child, entries, DoubleBlock(o, 0))
    requires CutState(v0, vol.View(), v, own, ino, nb, DoubleBlock(o, 0), {Slot(ino, Dbl), Slot(ino, Child(o))},
             {root, child})
    modifies vol.Footprint()
    ensures vol.Valid() && Tracked(v0, vol.View())
    ensures st == OK ==> CutState(v0, vol.View(), v', own', ino, nb, DoubleBlock(o + 1, 0), {Slot(ino, Dbl)}, {root})
    ensures st == OK ==> TableIs(v', ino, Dbl, root, EncodePointers(roots))
    ensures roots == table[o := roots[o]]
    ensures st == OK || st == EIO
    ensures vol.Reliable() ==> st == OK
  {
    hide *;
    ghost var p := vol.View();
    ghost var ds, cs := Slot(ino, Dbl), Slot(ino, Child(o));
    var pointers, remaining;
    pointers, remaining, v', own' :=
      CutEntries(vol, ino, entries, DoubleBlock(o, 0), nb, v0, v, own, Child(o), child, {ds, cs}, {root, child});
    ChildCut(v0, p, v, own, vol.View(), v', own', ino, nb, o, root, table, child, pointers, {ds, cs}, {ds, cs},
        {root, child}, {root, child});
    st, roots, v', own' := FinishChild(vol, ino, nb, o, root, table, child, EncodePointers(pointers), remaining == 0,
        v0, v', own');
  }

  /** Frees the child table that has become empty, or writes it back. */
  method FinishChild(vol: DenyVolume, ino: nat, nb: nat, o: nat, root: u32, table: Pointers, child: u32, data: Sector,
                     empty: bool,
                     ghost v0: Vol, ghost v: Vol, ghost own: Owners)
    returns (st: Status, roots: Pointers, ghost v': Vol, ghost own': Owners)
    requires vol.Valid() && o < POINTERS_PER_BLOCK && child != root
    requires TableIs(v, ino, Dbl, root, EncodePointers(table)) && TableIs(v, ino, Child(o), child, data)
    requires empty <==> EmptyTable(v.disk, child)
    requires CutState(v0, vol.View(), v, own, ino, nb, DoubleBlock(o + 1, 0), {Slot(ino, Dbl), Slot(ino, Child(o))},
             {root, child})
    modifies vol.Footprint()
    ensures vol.Valid() && Tracked(v0, vol.View())
    ensures st == OK ==> CutState(v0, vol.View(), v', own', ino, nb, DoubleBlock(o + 1, 0), {Slot(ino, Dbl)}, {root})
    ensures st == OK ==> TableIs(v', ino, Dbl, root, EncodePointers(roots))
    ensures roots == table[o := roots[o]]
    ensures st == OK || st == EIO
    ensures vol.Reliable() ==> st == OK
  {
    hide *;
    roots, v', own' := table, v, own;
    ghost var p := vol.View();
    TableIsFacts(v, ino, Child(o), child, data);
    if empty {
      v', own' := ChildDropped(v0, p, v, own, ino, nb, DoubleBlock(o + 1, 0), o, root, table, child);
      vol.FreeBlock(child);
      roots := table[o := INVALID];
      ShadowTracked(v0, vol.View(), v', own', ino, nb, DoubleBlock(o + 1, 0), {Slot(ino, Dbl)}, {root});
      st := OK;
    } else {
      ChildKept(v0, p, v, own, ino, nb, DoubleBlock(o + 1, 0), o, root, child, data);
      st := vol.WriteBlock(child, data);
      if st != OK {
        st := EIO;
      }
    }
  }

  lemma DoubleStart(v0: Vol, v: Vol, own: Owners, ino: nat, nb: nat) returns (t: u32)
    requires Cutting(v0, v, own, ino, nb, SINGLE_END, {})
    ensures Tracked(v0, v) && ino < MAX_INODES == |v.inodes| && t == v.inodes[ino].double
    ensures t == INVALID ==> Cutting(v0, v, own, ino, nb, MAX_FILE_BLOCKS, {})
    ensures t != INVALID ==> Used(v, t) && t < v.total && TableIs(v, ino, Dbl, t, EncodePointers(TableAt(v, t)))
    ensures t != INVALID ==> CutState(v0, v, v, own, ino, nb, DoubleBlock(0, 0), {Slot(ino, Dbl)}, {t})
    ensures POINTERS_PER_BLOCK > 0
  {
    hide Cutting, BitmapBlocks, Core, FreeSet, EncodePointers, DecodePointers;
    CuttingShape(v0, v, own, ino, nb, SINGLE_END, {});
    t := v.inodes[ino].double;
    assert Ref(v, Slot(ino, Dbl)) == t;
    if t == INVALID {
      DoubleHoles(v, ino);
      CutSkip(v0, v, own, ino, nb, SINGLE_END, MAX_FILE_BLOCKS, {});
    } else {
      RefInUse(v, own, Slot(ino, Dbl));
      SectorRoundTrip(v.disk[t]);
      CutExcept(v0, v, own, ino, nb, SINGLE_END, {}, {Slot(ino, Dbl)});
    }
  }

  lemma DoubleHoles(v: Vol, ino: nat)
    requires Shape(v) && ino < MAX_INODES && Ref(v, Slot(ino, Dbl)) == INVALID
    ensures forall lb :: SINGLE_END <= lb < MAX_FILE_BLOCKS ==> Phys(v, ino, lb) == INVALID
  {
    hide BitmapBlocks, Ptr;
  }

  lemma RootEmptyOrNot(v: Vol, ino: nat, r: u32, roots: Pointers)
    requires TableIs(v, ino, Dbl, r, EncodePointers(roots))
    ensures EmptyTable(v.disk, r) <==> (forall j :: 0 <= j < POINTERS_PER_BLOCK ==> roots[j] == INVALID)
  {
    hide BitmapBlocks, EncodePointers;
    PointersRoundTrip(roots);
    forall j | 0 <= j < POINTERS_PER_BLOCK
      ensures At(v.disk, r, j) == roots[j]
    {
    }
  }

  /** Cuts the blocks behind the double-indirect root. */
  method CutDouble(vol: DenyVolume, ino: nat, nb: nat, ghost v0: Vol, ghost own: Owners)
    returns (st: Status, ghost own': Owners)
    requires vol.Valid() && ino < MAX_INODES && Cutting(v0, vol.View(), own, ino, nb, SINGLE_END, {})
    modifies vol.Footprint()
    ensures vol.Valid() && Tracked(v0, vol.View())
    ensures st == OK ==> Cutting(v0, vol.View(), own', ino, nb, MAX_FILE_BLOCKS, {})
    ensures st == OK || st == EIO
    ensures vol.Reliable() ==> st == OK
  {
    hide *;
    own' := own;
    ghost var t := DoubleStart(v0, vol.View(), own, ino, nb);
    var root := vol.Node(ino).double;
    if root == INVALID {
      st := OK;
      return;
    }
    var ok, roots := ReadPointerTable(vol, root);
    if !ok {
      st := EIO;
      return;
    }
    var empty;
    ghost var v;
    st, roots, empty, v, own' := CutChildren(vol, ino, nb, root, roots, v0, vol.View(), own);
    if st != OK {
      return;
    }
    st, own' := FinishRooted(vol, ino, Dbl, root, EncodePointers(roots), empty, nb, MAX_FILE_BLOCKS, v0, v, own');
  }

  /** The loop over the children of the double-indirect root. */
  method CutChildren(vol: DenyVolume, ino: nat, nb: nat, root: u32, table: Pointers, ghost v0: Vol, ghost v: Vol,
                     ghost own: Owners)
    returns (st: Status, roots: Pointers, empty: bool, ghost v': Vol, ghost own': Owners)
    requires vol.Valid() && TableIs(v, ino, Dbl, root, EncodePointers(table))
    requires CutState(v0, vol.View(), v, own, ino, nb, DoubleBlock(0, 0), {Slot(ino, Dbl)}, {root})
    modifies vol.Footprint()
    ensures vol.Valid() && Tracked(v0, vol.View())
    ensures st == OK ==> CutState(v0, vol.View(), v', own', ino, nb, MAX_FILE_BLOCKS, {Slot(ino, Dbl)}, {root})
    ensures st == OK ==> TableIs(v', ino, Dbl, root, EncodePointers(roots)) && (empty <==> EmptyTable(v'.disk, root))
    ensures st == OK || st == EIO
    ensures vol.Reliable() ==> st == OK
  {
    hide *;
    st, roots, empty, v', own' := OK, table, false, v, own;
    ShadowTracked(v0, vol.View(), v', own', ino, nb, DoubleBlock(0, 0), {Slot(ino, Dbl)}, {root});
    TableSize(table);
    var remaining := 0;
    var o := 0;
    while o < POINTERS_PER_BLOCK
      invariant o <= POINTERS_PER_BLOCK == |roots|
      invariant vol.Valid() && CutState(v0, vol.View(), v', own', ino, nb, DoubleBlock(o, 0), {Slot(ino, Dbl)}, {root})
      invariant TableIs(v', ino, Dbl, root, EncodePointers(roots)) && Tracked(v0, vol.View())
      invariant remaining == 0 <==> (forall j :: 0 <= j < o ==> roots[j] == INVALID)
    {
      ghost var before := roots;
      st, roots, v', own' := CutChild(vol, ino, nb, o, root, roots, v0, v', own');
      if st != OK {
        return;
      }
      assert forall j :: 0 <= j < o ==> roots[j] == before[j];
      if roots[o] != INVALID {
        remaining := remaining + 1;
      }
      o := o + 1;
    }
    empty := remaining == 0;
    DoubleEnd();
    RootEmptyOrNot(v', ino, root, roots);
    st := OK;
  }

  lemma DoubleEnd()
    ensures DoubleBlock(POINTERS_PER_BLOCK, 0) == MAX_FILE_BLOCKS
  {
  }

  lemma TableSize(p: Pointers)
    ensures |p| == POINTERS_PER_BLOCK > 0
  {
  }

  /** truncate_file_blocks. */
  method TruncateFileBlocks(vol: DenyVolume, ino: nat, nb: nat, ghost own: Owners)
    returns (st: Status, ghost own': Owners)
    requires vol.Valid() && Mapping(vol.View(), own) && ino < MAX_INODES
    modifies vol.Footprint()
    ensures vol.Valid() && Tracked(old(vol.View()), vol.View())
    ensures st == OK ==> Cutting(old(vol.View()), vol.View(), own', ino, nb, MAX_FILE_BLOCKS, {})
    ensures st == OK || st == EIO
    ensures vol.Reliable() ==> st == OK
  {
    hide *;
    ghost var v0 := vol.View();
    CuttingNone(v0, own, ino, nb);
    own' := CutDirect(vol, ino, nb, v0, own);
    st, own' := CutSingle(vol, ino, nb, v0, own');
    if st != OK {
      return;
    }
    st, own' := CutDouble(vol, ino, nb, v0, own');
  }

  lemma CuttingNone(v: Vol, own: Owners, ino: nat, nb: nat)
    requires Mapping(v, own) && ino < MAX_INODES
    ensures Cutting(v, v, own, ino, nb, 0, {})
  {
    hide Core, Counted, NoHollow, Ref, Block, BitmapBlocks;
    MappingFacts(v, own);
  }
}
