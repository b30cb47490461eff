/** free_inode, remove_dirent and denyfs_vol_unlink. */
module Unlink {
  import opened Base
  import opened Codec
  import opened FileMap
  import opened Ownership
  import opened Growth
  import opened Files
  import opened Bytes
  import opened FileSystem
  import opened FileOps
  import opened Persist
  import opened Shrink
  import opened Volume
  import opened BlockMap
  import opened Flush
  import opened Access
  import opened Truncate
  import opened Resizing
  import opened Directory
  import opened Dirents
  import opened Create

  // ------------------------------------------------ counting as if truncating

  /**
   * free_inode frees the blocks that a truncation to nothing would free, but neither counts the
   * inode's blocks down nor writes its tables back. Recount(v, ino, c) is v with the count kept up.
   */
  function Recount(v: Vol, ino: nat, c: u32): (v': Vol)
  {
    if ino < |v.inodes| then WithInode(v, ino, v.inodes[ino].(blockCount := c)) else v
  }

  lemma RecountFacts(p: Vol, ino: nat, c: u32)
    ensures Recount(p, ino, c).bitmap == p.bitmap && Recount(p, ino, c).disk == p.disk
            && Recount(p, ino, c).total == p.total
    ensures Recount(p, ino, c).freeBlocks == p.freeBlocks && Recount(p, ino, c).dataStart == p.dataStart
    ensures |Recount(p, ino, c).inodes| == |p.inodes| && FreeSet(Recount(p, ino, c)) == FreeSet(p)
    ensures ino < |p.inodes| ==> Recount(p, ino, c).inodes[ino] == p.inodes[ino].(blockCount := c)
  {
  }

  lemma RecountClear(p: Vol, ino: nat, c: u32, b: nat)
    ensures ClearBit(Recount(p, ino, c), b) == Recount(ClearBit(p, b), ino, c)
  {
  }

  lemma RecountUncount(p: Vol, ino: nat, c: u32, b: nat)
    requires ino < |p.inodes| && c > 0
    ensures Uncount(ClearBit(Recount(p, ino, c), b), ino) == Recount(ClearBit(p, b), ino, c - 1)
  {
    RecountClear(p, ino, c, b);
    ClearBitInodes(p, b);
    hide ClearBit;
  }

  lemma RecountField(p: Vol, ino: nat, c: u32, l: Loc, b: nat)
    requires ino < |p.inodes| && (l == Ind || l == Dbl)
    ensures WithInode(ClearBit(Recount(p, ino, c), b), ino, SetField(Recount(p, ino, c).inodes[ino], l, INVALID)) ==
            Recount(WithInode(ClearBit(p, b), ino, SetField(p.inodes[ino], l, INVALID)), ino, c)
  {
    RecountClear(p, ino, c, b);
    ClearBitInodes(p, b);
    hide ClearBit;
  }

  /** The inode without direct block i; its count is left alone. */
  function DirectFreed(n: Inode, i: nat): (n': Inode)
    requires i < DIRECT_BLOCKS
  {
    n.(direct := n.direct[i := INVALID])
  }

  lemma RecountDirect(p: Vol, ino: nat, c: u32, i: nat, b: nat)
    requires ino < |p.inodes| && i < DIRECT_BLOCKS && c > 0
    ensures WithInode(ClearBit(Recount(p, ino, c), b), ino, DirectCut(Recount(p, ino, c).inodes[ino], i)) ==
            Recount(WithInode(ClearBit(p, b), ino, DirectFreed(p.inodes[ino], i)), ino, c - 1)
  {
    RecountClear(p, ino, c, b);
    ClearBitInodes(p, b);
    hide ClearBit;
  }

  lemma RecountTracked(v0: Vol, p: Vol, ino: nat, c: u32)
    requires Tracked(v0, Recount(p, ino, c))
    ensures Tracked(v0, p)
  {
    hide BitmapBlocks, BitmapSector;
  }

  lemma RecountTable(p: Vol, ino: nat, c: u32, t: nat)
    ensures TableAt(Recount(p, ino, c), t) == TableAt(p, t)
    ensures Used(Recount(p, ino, c), t) <==> Used(p, t)
  {
  }

  // ------------------------------------------------------------ direct blocks

  lemma FreeDirectTurn(v0: Vol, p: Vol, c: u32, own: Owners, ino: nat, i: nat) returns (c': u32)
    requires Cutting(v0, Recount(p, ino, c), own, ino, 0, i, {}) && i < DIRECT_BLOCKS
    ensures ino < MAX_INODES == |p.inodes| && p.freeBlocks == |FreeSet(p)| && |p.inodes[ino].direct| == DIRECT_BLOCKS
    ensures p.inodes[ino].direct[i] == INVALID ==> Cutting(v0, Recount(p, ino, c), own, ino, 0, i + 1, {})
    ensures p.inodes[ino].direct[i] != INVALID ==>
              var b := p.inodes[ino].direct[i];
              && Used(p, b) && ClearBit(p, b).inodes == p.inodes
              && Cutting(v0, Recount(WithInode(ClearBit(p, b), ino, DirectFreed(p.inodes[ino], i)), ino, c'),
                  own - {b}, ino, 0, i + 1, {})
  {
    hide Cutting, Core, FreeSet, BitmapBlocks, ClearBit, DirectCut, Recount;
    CuttingShape(v0, Recount(p, ino, c), own, ino, 0, i, {});
    RecountFacts(p, ino, c);
    DirectTurn(v0, Recount(p, ino, c), own, ino, 0, i);
    c' := c;
    if p.inodes[ino].direct[i] != INVALID {
      var b := p.inodes[ino].direct[i];
      RecountTable(p, ino, c, b);
      ClearBitInodes(p, b);
      c' := c - 1;
      RecountDirect(p, ino, c, i, b);
    }
  }

  method FreeDirect(vol: DenyVolume, ino: nat, ghost v0: Vol, ghost c: u32, ghost own: Owners)
    returns (ghost c': u32, ghost own': Owners)
    requires vol.Valid() && ino < MAX_INODES && Cutting(v0, Recount(vol.View(), ino, c), own, ino, 0, 0, {})
    modifies vol.Footprint()
    ensures vol.Valid() && Cutting(v0, Recount(vol.View(), ino, c'), own', ino, 0, DIRECT_BLOCKS, {})
    ensures vol.View().freeInodes == old(vol.View()).freeInodes
  {
    hide *;
    c', own' := c, own;
    ghost var free := vol.View().freeInodes;
    var i := 0;
    while i < DIRECT_BLOCKS
      invariant i <= DIRECT_BLOCKS && vol.View().freeInodes == free
      invariant vol.Valid() && Cutting(v0, Recount(vol.View(), ino, c'), own', ino, 0, i, {})
    {
      ghost var c1 := FreeDirectTurn(v0, vol.View(), c', own', ino, i);
      var inode := vol.Node(ino);
      if inode.direct[i] != INVALID {
        ClearedFreeInodes(vol.View(), inode.direct[i], ino, DirectFreed(inode, i));
        vol.FreeBlock(inode.direct[i]);
        vol.PutInode(ino, DirectFreed(inode, i));
        c', own' := c1, own' - {inode.direct[i]};
      }
      i := i + 1;
    }
  }

  lemma ClearedFreeInodes(v: Vol, b: nat, ino: nat, n: Inode)
    ensures WithInode(ClearBit(v, b), ino, n).freeInodes == v.freeInodes && ClearBit(v, b).freeInodes == v.freeInodes
  {
  }

  // ----------------------------------------------------------- table entries

  /** One turn of a freeing loop at entry i, which holds x; `cleared` is the table without that entry. */
  lemma FreeEntryTurn(v0: Vol, p: Vol, c: u32, v: Vol, own: Owners, ino: nat, t: Loc, tb: nat, q: Pointers,
                      first: nat, i: nat, x: u32, cleared: Pointers, except: set<Slot>, blocks: set<nat>)
    returns (c': u32, v': Vol, own': Owners)
    requires i < POINTERS_PER_BLOCK && q[i] == x != INVALID && cleared == q[i := INVALID]
    requires tb in blocks && Slot(ino, t) in except && Holds(v, ino, t, tb, q, first)
             && CutState(v0, Recount(p, ino, c), v, own, ino, 0, first + i, except, blocks)
    ensures Used(p, x) && p.freeBlocks == |FreeSet(p)|
    ensures CutState(v0, Recount(ClearBit(p, x), ino, c'), v', own', ino, 0, first + i + 1, except, blocks)
    ensures Holds(v', ino, t, tb, cleared, first) && ClearBit(p, x).disk == p.disk
    ensures v'.disk == PutBlock(v, tb, EncodePointers(cleared)).disk
            && ClearBit(p, x).freeInodes == p.freeInodes
  {
    hide CutState, Core, FreeSet, BitmapBlocks, ClearBit, Uncount, Holds, Recount, EncodePointers;
    v', own' := EntryTurn(v0, Recount(p, ino, c), v, own, ino, 0, t, tb, q, first, i, x, cleared, except, blocks);
    RecountFacts(p, ino, c);
    RecountTable(p, ino, c, x);
    c' := c - 1;
    RecountUncount(p, ino, c, x);
    ClearBitInodes(p, x);
    ClearedFreeInodes(p, x, ino, EmptyInode(FREE, 0));
  }

  lemma FreeEntrySkip(v0: Vol, p: Vol, c: u32, v: Vol, own: Owners, ino: nat, t: Loc, tb: nat, q: Pointers,
                      first: nat, i: nat, except: set<Slot>, blocks: set<nat>)
    requires i < POINTERS_PER_BLOCK && q[i] == INVALID
    requires Holds(v, ino, t, tb, q, first)
             && CutState(v0, Recount(p, ino, c), v, own, ino, 0, first + i, except, blocks)
    ensures CutState(v0, Recount(p, ino, c), v, own, ino, 0, first + i + 1, except, blocks)
  {
    hide CutState, Holds, Recount;
    EntryKept(v0, Recount(p, ino, c), v, own, ino, 0, t, tb, q, first, i, except, blocks);
  }

  /** Frees the blocks that a table refers to. */
  method FreeEntries(vol: DenyVolume, ino: nat, table: Pointers, ghost first: nat, ghost v0: Vol, ghost c: u32,
                     ghost v: Vol, ghost own: Owners,
                     ghost t: Loc, ghost tb: nat, ghost except: set<Slot>, ghost blocks: set<nat>)
    returns (ghost c': u32, ghost v': Vol, ghost own': Owners)
    requires vol.Valid() && CutState(v0, Recount(vol.View(), ino, c), v, own, ino, 0, first, except, blocks)
    requires tb in blocks && Slot(ino, t) in except && Holds(v, ino, t, tb, table, first)
    modifies vol.Footprint()
    ensures vol.Valid()
            && CutState(v0, Recount(vol.View(), ino, c'), v', own', ino, 0, first + POINTERS_PER_BLOCK, except, blocks)
    ensures Holds(v', ino, t, tb, NoPointers(), first) && vol.View().disk == old(vol.View()).disk
    ensures v'.disk == PutBlock(v, tb, EncodePointers(NoPointers())).disk
    ensures vol.View().freeInodes == old(vol.View()).freeInodes
  {
    hide *;
    c', v', own' := c, v, own;
    ghost var q := table;
    HoldsShape(v, ino, t, tb, table, first);
    HoldsDisk(v, ino, t, tb, table, first);
    ClearedNone(table);
    ghost var disk, free := vol.View().disk, vol.View().freeInodes;
    var i := 0;
    while i < POINTERS_PER_BLOCK
      invariant i <= POINTERS_PER_BLOCK == |table|
      invariant vol.Valid() && CutState(v0, Recount(vol.View(), ino, c'), v', own', ino, 0, first + i, except, blocks)
      invariant Holds(v', ino, t, tb, q, first) && v'.disk == PutBlock(v, tb, EncodePointers(q)).disk
      invariant vol.View().disk == disk && vol.View().freeInodes == free && Cleared(table, q, i)
    {
      ClearedAt(table, q, i);
      if table[i] != INVALID {
        ghost var c1, v1, own1 := FreeEntryTurn(v0, vol.View(), c', v', own', ino, t, tb, q, first, i,
                                                     q[i], q[i := INVALID], except, blocks);
        PutTwice(v, v', tb, EncodePointers(q), EncodePointers(q[i := INVALID]));
        vol.FreeBlock(table[i]);
        c', v', own' := c1, v1, own1;
        q := q[i := INVALID];
      } else {
        FreeEntrySkip(v0, vol.View(), c', v', own', ino, t, tb, q, first, i, except, blocks);
      }
      i := i + 1;
    }
    ClearedAll(table, q);
  }

  /** q is a table without its first n entries. */
  ghost predicate Cleared(table: Pointers, q: Pointers, n: nat)
  {
    forall j :: 0 <= j < POINTERS_PER_BLOCK ==> q[j] == if j < n then INVALID else table[j]
  }

  lemma ClearedNone(table: Pointers)
    ensures Cleared(table, table, 0)
  {
  }

  lemma ClearedAt(table: Pointers, q: Pointers, i: nat)
    requires Cleared(table, q, i) && i < POINTERS_PER_BLOCK
    ensures q[i] == table[i] && i < |q| == POINTERS_PER_BLOCK
    ensures Cleared(table, q[i := INVALID], i + 1)
    ensures table[i] == INVALID ==> Cleared(table, q, i + 1)
  {
  }

  lemma ClearedAll(table: Pointers, q: Pointers)
    requires Cleared(table, q, POINTERS_PER_BLOCK)
    ensures q == NoPointers()
  {
  }

  // ---------------------------------------------------------- single indirect

  /** The table in slot (ino, l), of an inode field, whose entries have all been freed. */
  lemma DropFreed(v0: Vol, p: Vol, c: u32, v: Vol, own: Owners, ino: nat, cur: nat, l: Loc, tb: u32)
    returns (own': Owners)
    requires (l == Ind || l == Dbl) && CutState(v0, Recount(p, ino, c), v, own, ino, 0, cur, {Slot(ino, l)}, {tb})
    requires TableIs(v, ino, l, tb, EncodePointers(NoPointers()))
    ensures Used(p, tb) && p.freeBlocks == |FreeSet(p)| && ino < |p.inodes| && ClearBit(p, tb).inodes == p.inodes
    ensures ClearBit(p, tb).freeInodes == p.freeInodes
    ensures Cutting(v0, Recount(WithInode(ClearBit(p, tb), ino, SetField(p.inodes[ino], l, INVALID)), ino, c), own',
            ino, 0, cur, {})
  {
    hide CutState, Core, FreeSet, BitmapBlocks, ClearBit, Recount, Cutting, EncodePointers, SetField, Get;
    RootEmptyAgain(v, ino, l, tb);
    own' := DropRooted(v0, Recount(p, ino, c), v, own, ino, 0, cur, l, tb);
    RecountFacts(p, ino, c);
    RecountTable(p, ino, c, tb);
    RecountField(p, ino, c, l, tb);
    ClearBitInodes(p, tb);
    ClearedFreeInodes(p, tb, ino, EmptyInode(FREE, 0));
  }

  lemma RootEmptyAgain(v: Vol, ino: nat, l: Loc, tb: u32)
    requires TableIs(v, ino, l, tb, EncodePointers(NoPointers()))
    ensures |v.inodes| == MAX_INODES && ino < MAX_INODES && ValidLoc(l) && Ref(v, Slot(ino, l)) == tb && tb < v.total
            && EmptyTable(v.disk, tb)
  {
    hide BitmapBlocks, EncodePointers;
    PointersRoundTrip(NoPointers());
    forall j | 0 <= j < POINTERS_PER_BLOCK
      ensures At(v.disk, tb, j) == INVALID
    {
    }
  }

  /** Frees the table in an inode field, once its entries are freed, and clears the field. */
  method FreeRooted(vol: DenyVolume, ino: nat, l: Loc, table: u32, ghost cur: nat, ghost v0: Vol, ghost c: u32,
                    ghost v: Vol, ghost own: Owners)
    returns (ghost own': Owners)
    requires vol.Valid() && (l == Ind || l == Dbl)
    requires CutState(v0, Recount(vol.View(), ino, c), v, own, ino, 0, cur, {Slot(ino, l)}, {table})
    requires TableIs(v, ino, l, table, EncodePointers(NoPointers()))
    modifies vol.Footprint()
    ensures vol.Valid() && Cutting(v0, Recount(vol.View(), ino, c), own', ino, 0, cur, {})
    ensures vol.View().freeInodes == old(vol.View()).freeInodes
  {
    hide *;
    TableIsFacts(v, ino, l, table, EncodePointers(NoPointers()));
    HomeOfRooted(l);
    own' := DropFreed(v0, vol.View(), c, v, own, ino, cur, l, table);
    ClearedFreeInodes(vol.View(), table, ino, SetField(vol.View().inodes[ino], l, INVALID));
    vol.FreeBlock(table);
    var inode := vol.Node(ino);
    vol.PutInode(ino, SetField(inode, l, INVALID));
  }

  lemma FreeSingleStart(v0: Vol, p: Vol, c: u32, own: Owners, ino: nat) returns (t: u32)
    requires Cutting(v0, Recount(p, ino, c), own, ino, 0, DIRECT_BLOCKS, {})
    ensures Tracked(v0, p) && ino < MAX_INODES == |p.inodes| && t == p.inodes[ino].indirect
    ensures t == INVALID ==> Cutting(v0, Recount(p, ino, c), own, ino, 0, SINGLE_END, {})
    ensures t != INVALID ==> Used(p, t) && Holds(Recount(p, ino, c), ino, Ind, t, TableAt(p, t), DIRECT_BLOCKS)
    ensures t != INVALID ==>
              CutState(v0, Recount(p, ino, c), Recount(p, ino, c), own, ino, 0, DIRECT_BLOCKS, {Slot(ino, Ind)}, {t})
    ensures DIRECT_BLOCKS + POINTERS_PER_BLOCK == SINGLE_END
  {
    hide Cutting, CutState, Recount, Holds, Tracked, TableAt, Used;
    t := SingleStart(v0, Recount(p, ino, c), own, ino, 0);
    RecountFacts(p, ino, c);
    RecountTracked(v0, p, ino, c);
    RecountTable(p, ino, c, t);
  }

  /** The single-indirect table and its blocks. */
  method FreeSingle(vol: DenyVolume, ino: nat, ghost v0: Vol, ghost c: u32, ghost own: Owners)
    returns (st: Status, ghost c': u32, ghost own': Owners)
    requires vol.Valid() && ino < MAX_INODES && Cutting(v0, Recount(vol.View(), ino, c), own, ino, 0, DIRECT_BLOCKS, {})
    modifies vol.Footprint()
    ensures vol.Valid() && Tracked(v0, vol.View()) && vol.View().freeInodes == old(vol.View()).freeInodes
    ensures st == OK ==> Cutting(v0, Recount(vol.View(), ino, c'), own', ino, 0, SINGLE_END, {})
    ensures st == OK || (st == EIO && vol.faulty)
  {
    hide *;
    st, c', own' := OK, c, own;
    ghost var t := FreeSingleStart(v0, vol.View(), c, own, ino);
    var table := vol.Node(ino).indirect;
    if table == INVALID {
      return;
    }
    var ok, pointers := ReadPointerTable(vol, table);
    if !ok {
      st := EIO;
      return;
    }
    ghost var v;
    c', v, own' := FreeEntries(vol, ino, pointers, DIRECT_BLOCKS, v0, c, Recount(vol.View(), ino, c), own, Ind, table,
        {Slot(ino, Ind)}, {table});
    HoldsTable(v, ino, Ind, table, NoPointers(), DIRECT_BLOCKS);
    own' := FreeRooted(vol, ino, Ind, table, SINGLE_END, v0, c', v, own');
    CuttingTracked(v0, Recount(vol.View(), ino, c'), own', ino, 0, SINGLE_END);
    RecountTracked(v0, vol.View(), ino, c');
  }

  // ---------------------------------------------------------- double indirect

  lemma FreeDoubleStart(v0: Vol, p: Vol, c: u32, own: Owners, ino: nat) returns (t: u32)
    requires Cutting(v0, Recount(p, ino, c), own, ino, 0, SINGLE_END, {})
    ensures Tracked(v0, p) && ino < MAX_INODES == |p.inodes| && t == p.inodes[ino].double
    ensures t == INVALID ==> Cutting(v0, Recount(p, ino, c), own, ino, 0, MAX_FILE_BLOCKS, {})
    ensures t != INVALID ==> Used(p, t) && TableIs(Recount(p, ino, c), ino, Dbl, t, EncodePointers(TableAt(p, t)))
    ensures t != INVALID ==>
              CutState(v0, Recount(p, ino, c), Recount(p, ino, c), own, ino, 0, DoubleBlock(0, 0), {Slot(ino, Dbl)},
                 {t})
  {
    hide Cutting, CutState, Recount, TableIs, Tracked, TableAt, Used, EncodePointers;
    t := DoubleStart(v0, Recount(p, ino, c), own, ino, 0);
    RecountFacts(p, ino, c);
    RecountTracked(v0, p, ino, c);
    RecountTable(p, ino, c, t);
  }

  lemma FreeChildStart(v0: Vol, p: Vol, c: u32, v: Vol, own: Owners, ino: nat, o: nat, r: u32, q: Pointers)
    requires o < POINTERS_PER_BLOCK && TableIs(v, ino, Dbl, r, EncodePointers(q))
    requires CutState(v0, Recount(p, ino, c), v, own, ino, 0, DoubleBlock(o, 0), {Slot(ino, Dbl)}, {r})
    ensures Tracked(v0, p)
    ensures q[o] == INVALID ==>
              CutState(v0, Recount(p, ino, c), v, own, ino, 0, DoubleBlock(o + 1, 0), {Slot(ino, Dbl)}, {r})
    ensures q[o] != INVALID ==>
              && Used(p, q[o]) && q[o] != r
              && Holds(v, ino, Child(o), q[o], TableAt(p, q[o]), DoubleBlock(o, 0))
              && CutState(v0, Recount(p, ino, c), v, own, ino, 0, DoubleBlock(o, 0),
                  {Slot(ino, Dbl), Slot(ino, Child(o))}, {r, q[o]})
  {
    hide CutState, Recount, Holds, Tracked, TableAt, Used, TableIs, DoubleBlock, EncodePointers;
    ShadowTracked(v0, Recount(p, ino, c), v, own, ino, 0, DoubleBlock(o, 0), {Slot(ino, Dbl)}, {r});
    RecountTracked(v0, p, ino, c);
    ChildStart(v0, Recount(p, ino, c), v, own, ino, 0, o, r, q);
    RecountTable(p, ino, c, q[o]);
  }

  /** The child table o, whose entries have all been freed. */
  lemma FreeChildEnd(v0: Vol, p0: Vol, c0: u32, v: Vol, own: Owners, p: Vol, c: u32, v1: Vol, own1: Owners, ino: nat,
                     o: nat, r: u32,
                     q: Pointers, child: u32) returns (v': Vol, own': Owners)
    requires o < POINTERS_PER_BLOCK && child != r && child != INVALID && TableIs(v, ino, Dbl, r, EncodePointers(q))
    requires CutState(v0, Recount(p0, ino, c0), v, own, ino, 0, DoubleBlock(o, 0),
             {Slot(ino, Dbl), Slot(ino, Child(o))}, {r, child})
    requires CutState(v0, Recount(p, ino, c), v1, own1, ino, 0, DoubleBlock(o, 0) + POINTERS_PER_BLOCK,
                      {Slot(ino, Dbl), Slot(ino, Child(o))}, {r, child})
    requires Holds(v1, ino, Child(o), child, NoPointers(), DoubleBlock(o, 0))
             && v1.disk == PutBlock(v, child, EncodePointers(NoPointers())).disk
    ensures Used(p, child) && p.freeBlocks == |FreeSet(p)|
    ensures CutState(v0, Recount(ClearBit(p, child), ino, c), v', own', ino, 0, DoubleBlock(o + 1, 0),
            {Slot(ino, Dbl)}, {r})
    ensures TableIs(v', ino, Dbl, r, EncodePointers(q[o := INVALID])) && ClearBit(p, child).freeInodes == p.freeInodes
  {
    hide CutState, Recount, Holds, TableIs, DoubleBlock, EncodePointers, ClearBit, FreeSet, EmptyTable, Ref;
    ChildCut(v0, Recount(p0, ino, c0), v, own, Recount(p, ino, c), v1, own1, ino, 0, o, r, q, child, NoPointers(),
             {Slot(ino, Dbl), Slot(ino, Child(o))}, {Slot(ino, Dbl), Slot(ino, Child(o))}, {r, child}, {r, child});
    TableIsFacts(v1, ino, Child(o), child, EncodePointers(NoPointers()));
    v', own' := ChildDropped(v0, Recount(p, ino, c), v1, own1, ino, 0, DoubleBlock(o + 1, 0), o, r, q, child);
    RecountFacts(p, ino, c);
    RecountTable(p, ino, c, child);
    RecountClear(p, ino, c, child);
    ClearedFreeInodes(p, child, ino, EmptyInode(FREE, 0));
  }

  /** One child table and its blocks. */
  method FreeChild(vol: DenyVolume, ino: nat, ghost o: nat, child: u32, ghost root: u32, ghost q: Pointers,
                   ghost v0: Vol, ghost c: u32, ghost v: Vol, ghost own: Owners)
    returns (st: Status, ghost c': u32, ghost v': Vol, ghost own': Owners)
    requires vol.Valid() && o < POINTERS_PER_BLOCK && TableIs(v, ino, Dbl, root, EncodePointers(q))
             && child == q[o] != INVALID
    requires CutState(v0, Recount(vol.View(), ino, c), v, own, ino, 0, DoubleBlock(o, 0), {Slot(ino, Dbl)}, {root})
    modifies vol.Footprint()
    ensures vol.Valid() && vol.View().freeInodes == old(vol.View()).freeInodes
    ensures st == OK ==>
              && CutState(v0, Recount(vol.View(), ino, c'), v', own', ino, 0, DoubleBlock(o + 1, 0), {Slot(ino, Dbl)},
                  {root})
              && TableIs(v', ino, Dbl, root, EncodePointers(q[o := INVALID]))
    ensures st != OK ==> Tracked(v0, vol.View())
    ensures st == OK || (st == EIO && vol.faulty)
  {
    hide *;
    st, c', v', own' := OK, c, v, own;
    ghost var p0 := vol.View();
    FreeChildStart(v0, p0, c, v, own, ino, o, root, q);
    var ok, pointers := ReadPointerTable(vol, child);
    if !ok {
      st := EIO;
      return;
    }
    ghost var v1, own1;
    c', v1, own1 := FreeEntries(vol, ino, pointers, DoubleBlock(o, 0), v0, c, v, own, Child(o), child,
                                {Slot(ino, Dbl), Slot(ino, Child(o))}, {root, child});
    v', own' := FreeChildEnd(v0, p0, c, v, own, vol.View(), c', v1, own1, ino, o, root, q, child);
    vol.FreeBlock(child);
  }

  /** The double-indirect root, its children and their blocks. */
  method FreeDouble(vol: DenyVolume, ino: nat, ghost v0: Vol, ghost c: u32, ghost own: Owners)
    returns (st: Status, ghost c': u32, ghost own': Owners)
    requires vol.Valid() && ino < MAX_INODES && Cutting(v0, Recount(vol.View(), ino, c), own, ino, 0, SINGLE_END, {})
    modifies vol.Footprint()
    ensures vol.Valid() && vol.View().freeInodes == old(vol.View()).freeInodes
    ensures st == OK ==> Cutting(v0, Recount(vol.View(), ino, c'), own', ino, 0, MAX_FILE_BLOCKS, {})
    ensures st != OK ==> Tracked(v0, vol.View())
    ensures st == OK || (st == EIO && vol.faulty)
  {
    hide *;
    st, c', own' := OK, c, own;
    ghost var t := FreeDoubleStart(v0, vol.View(), c, own, ino);
    var root := vol.Node(ino).double;
    if root == INVALID {
      return;
    }
    var ok, roots := ReadPointerTable(vol, root);
    if !ok {
      st := EIO;
      return;
    }
    ghost var v;
    st, c', v, own' := FreeChildren(vol, ino, root, roots, v0, c, Recount(vol.View(), ino, c), own);
    if st != OK {
      return;
    }
    own' := FreeRooted(vol, ino, Dbl, root, MAX_FILE_BLOCKS, v0, c', v, own');
  }

  method FreeChildren(vol: DenyVolume, ino: nat, ghost root: u32, roots: Pointers, ghost v0: Vol, ghost c: u32,
                      ghost v: Vol, ghost own: Owners)
    returns (st: Status, ghost c': u32, ghost v': Vol, ghost own': Owners)
    requires vol.Valid() && TableIs(v, ino, Dbl, root, EncodePointers(roots))
    requires CutState(v0, Recount(vol.View(), ino, c), v, own, ino, 0, DoubleBlock(0, 0), {Slot(ino, Dbl)}, {root})
    modifies vol.Footprint()
    ensures vol.Valid() && vol.View().freeInodes == old(vol.View()).freeInodes
    ensures st == OK ==>
              CutState(v0, Recount(vol.View(), ino, c'), v', own', ino, 0, MAX_FILE_BLOCKS, {Slot(ino, Dbl)}, {root})
    ensures st == OK ==> TableIs(v', ino, Dbl, root, EncodePointers(NoPointers()))
    ensures st != OK ==> Tracked(v0, vol.View())
    ensures st == OK || (st == EIO && vol.faulty)
  {
    hide *;
    st, c', v', own' := OK, c, v, own;
    ghost var q := roots;
    ClearedNone(roots);
    TableSize(roots);
    ghost var free := vol.View().freeInodes;
    var o := 0;
    while o < POINTERS_PER_BLOCK
      invariant o <= POINTERS_PER_BLOCK == |roots| && st == OK
      invariant vol.Valid()
                && CutState(v0, Recount(vol.View(), ino, c'), v', own', ino, 0, DoubleBlock(o, 0), {Slot(ino, Dbl)},
                {root})
      invariant TableIs(v', ino, Dbl, root, EncodePointers(q)) && Cleared(roots, q, o) && vol.View().freeInodes == free
    {
      ClearedAt(roots, q, o);
      if roots[o] == INVALID {
        FreeChildStart(v0, vol.View(), c', v', own', ino, o, root, q);
      } else {
        st, c', v', own' := FreeChild(vol, ino, o, roots[o], root, q, v0, c', v', own');
        if st != OK {
          return;
        }
        q := q[o := INVALID];
      }
      o := o + 1;
    }
    DoubleEnd();
    ClearedAll(roots, q);
  }

  // -------------------------------------------------------------- free_inode

  /** The inode of a file was freed with all its blocks: exactly those went back to the free set. */
  ghost predicate Freed(v: Vol, own: Owners, w: Vol, own': Owners, ino: nat)
  {
    && |v.inodes| == MAX_INODES && ino < MAX_INODES && v.freeInodes < INVALID
    && Mapping(w, own') && Tracked(v, w)
    && w.inodes == v.inodes[ino := EmptyInode(FREE, 0)] && w.freeInodes == v.freeInodes + 1
    && OtherBlocks(v, w, ino) && Restricted(v, own, w, own', ino, 0)
  }

  /** free_inode's last step. */
  function FreeRecord(n: Inode): (n': Inode)
  {
    n.(kind := FREE, size := 0, blockCount := 0, mtime := 0)
  }

  /** The volume with inode ino freed; its blocks are already gone. */
  function InodeFreed(v: Vol, ino: nat): (v': Vol)
  {
    if ino < |v.inodes| && v.freeInodes < INVALID then
      v.(inodes := v.inodes[ino := FreeRecord(v.inodes[ino])], freeInodes := v.freeInodes + 1)
    else v
  }

  lemma RecountSelf(v: Vol, ino: nat)
    requires ino < |v.inodes|
    ensures Recount(v, ino, v.inodes[ino].blockCount) == v
  {
    assert v.inodes[ino := v.inodes[ino]] == v.inodes;
  }

  lemma FreedFrom(v: Vol, own0: Owners, p: Vol, c: u32, own: Owners, ino: nat)
    requires Mapping(v, own0) && ino < MAX_INODES && p.freeInodes == v.freeInodes < INVALID
    requires Cutting(v, Recount(p, ino, c), own, ino, 0, MAX_FILE_BLOCKS, {})
    ensures ino < |p.inodes| && Freed(v, own0, InodeFreed(p, ino), own, ino)
  {
    hide *;
    MappingFacts(v, own0);
    var r := Recount(p, ino, c);
    CuttingShape(v, r, own, ino, 0, MAX_FILE_BLOCKS, {});
    RecountFacts(p, ino, c);
    CutRestricts(v, own0, r, own, ino, 0);
    NothingLeft(v, own0, r, own, ino);
    FreedInodes(v, r, own, ino, p, c);
    FreedMapping(v, r, own, ino, InodeFreed(p, ino));
    RestrictedMeta(v, own0, r, own, ino, 0, InodeFreed(p, ino));
    FreedIntro(v, own0, InodeFreed(p, ino), own, ino);
  }

  lemma NothingLeft(v: Vol, own0: Owners, r: Vol, own: Owners, ino: nat)
    requires Mapping(v, own0) && Shape(v) && Shape(r) && ino < MAX_INODES
    requires Cutting(v, r, own, ino, 0, MAX_FILE_BLOCKS, {})
    ensures NoBlocks(r.inodes[ino]) && r.inodes[ino].blockCount == 0
  {
    hide Mapping, BitmapBlocks, Cutting, Ptr, Remains;
    forall l | ValidLoc(l)
      ensures Ref(r, Slot(ino, l)) == INVALID
    {
      CutRemains(v, own0, r, own, ino, 0, l);
      NoneRemains(v, ino, l);
    }
    forall i | 0 <= i < DIRECT_BLOCKS
      ensures r.inodes[ino].direct[i] == INVALID
    {
      assert Ref(r, Slot(ino, Data(i))) == INVALID;
    }
    assert Ref(r, Slot(ino, Ind)) == INVALID && Ref(r, Slot(ino, Dbl)) == INVALID;
    NoneCounted(v, r, own, ino);
  }

  lemma NoneRemains(v: Vol, ino: nat, l: Loc)
    requires |v.inodes| == MAX_INODES && ino < MAX_INODES
    ensures !Remains(v, ino, l, 0)
  {
  }

  lemma NoneCounted(v: Vol, r: Vol, own: Owners, ino: nat)
    requires Shape(r) && ino < MAX_INODES && Cutting(v, r, own, ino, 0, MAX_FILE_BLOCKS, {})
    requires forall l :: ValidLoc(l) ==> Ref(r, Slot(ino, l)) == INVALID
    ensures r.inodes[ino].blockCount == 0
  {
    hide Ref, Cutting, BitmapBlocks;
    CuttingShape(v, r, own, ino, 0, MAX_FILE_BLOCKS, {});
    assert CountedAt(r, ino);
    assert Mapped(r, ino) == {};
  }

  lemma FreedInodes(v: Vol, r: Vol, own: Owners, ino: nat, p: Vol, c: u32)
    requires Shape(v) && ino < MAX_INODES && |p.inodes| == MAX_INODES && p.freeInodes < INVALID
    requires r == Recount(p, ino, c) && Cutting(v, r, own, ino, 0, MAX_FILE_BLOCKS, {}) && NoBlocks(r.inodes[ino])
    requires p.freeInodes == v.freeInodes
    ensures InodeFreed(p, ino).inodes == r.inodes[ino := EmptyInode(FREE, 0)] == v.inodes[ino := EmptyInode(FREE, 0)]
    ensures InodeFreed(p, ino) == r.(inodes := InodeFreed(p, ino).inodes, freeInodes := v.freeInodes + 1)
  {
    hide Core, Counted, NoHollow, Tracked, OtherBlocks, Block, Ref, BitmapBlocks;
  }

  lemma FreedMapping(v: Vol, r: Vol, own: Owners, ino: nat, w: Vol)
    requires Cutting(v, r, own, ino, 0, MAX_FILE_BLOCKS, {}) && Shape(r) && ino < MAX_INODES
    requires NoBlocks(r.inodes[ino]) && r.inodes[ino].blockCount == 0
    requires w == r.(inodes := r.inodes[ino := EmptyInode(FREE, 0)], freeInodes := w.freeInodes)
    ensures Mapping(w, own) && Tracked(v, w) && |v.inodes| == MAX_INODES && OtherBlocks(v, w, ino)
    ensures w.bitmap == r.bitmap && w.total == r.total && w.dataStart == r.dataStart && w.freeBlocks == r.freeBlocks
  {
    hide Core, Counted, NoHollow, Ref, Block, BitmapBlocks;
    SameMapMapping(r, own, w);
    assert Tracked(r, w);
    TrackedTransitive(v, r, w);
  }

  lemma FreedIntro(v: Vol, own: Owners, w: Vol, own': Owners, ino: nat)
    requires |v.inodes| == MAX_INODES && ino < MAX_INODES && v.freeInodes < INVALID
    requires Mapping(w, own') && Tracked(v, w)
    requires w.inodes == v.inodes[ino := EmptyInode(FREE, 0)] && w.freeInodes == v.freeInodes + 1
    requires OtherBlocks(v, w, ino) && Restricted(v, own, w, own', ino, 0)
    ensures Freed(v, own, w, own', ino)
  {
    hide Mapping, Tracked, OtherBlocks, Restricted;
  }

  /** free_inode. */
  method FreeInodeBlocks(vol: DenyVolume, ino: nat, ghost own: Owners) returns (st: Status, ghost own': Owners)
    requires vol.Valid() && Mapping(vol.View(), own) && ino < MAX_INODES && vol.View().freeInodes < INVALID
    modifies vol.Footprint()
    ensures vol.Valid() && Tracked(old(vol.View()), vol.View())
    ensures st == OK ==> Freed(old(vol.View()), own, vol.View(), own', ino)
    ensures st == OK || (st == EIO && vol.faulty)
  {
    hide *;
    ghost var v0 := vol.View();
    MappingFacts(v0, own);
    GeometryBounds(v0);
    CuttingNone(v0, own, ino, 0);
    RecountSelf(v0, ino);
    ghost var c;
    c, own' := FreeDirect(vol, ino, v0, v0.inodes[ino].blockCount, own);
    st, c, own' := FreeSingle(vol, ino, v0, c, own');
    if st != OK {
      return;
    }
    st, c, own' := FreeDouble(vol, ino, v0, c, own');
    if st != OK {
      return;
    }
    FreedFrom(v0, own, vol.View(), c, own', ino);
    var inode := vol.Node(ino);
    ghost var p := vol.View();
    vol.PutInode(ino, FreeRecord(inode));
    FreeInodesOf(vol);
    RecordWritten(p, ino);
    vol.PutFreeInodes(vol.freeInodes + 1);
    FreedTracked(v0, own, vol.View(), own', ino);
  }

  lemma RecordWritten(p: Vol, ino: nat)
    requires ino < |p.inodes| && p.freeInodes < INVALID
    ensures WithInode(p, ino, FreeRecord(p.inodes[ino])).freeInodes == p.freeInodes
    ensures WithInode(p, ino, FreeRecord(p.inodes[ino])).(freeInodes := p.freeInodes + 1) == InodeFreed(p, ino)
  {
  }

  lemma FreedTracked(v: Vol, own: Owners, w: Vol, own': Owners, ino: nat)
    requires Freed(v, own, w, own', ino)
    ensures Tracked(v, w)
  {
    hide Mapping, Tracked, OtherBlocks, Restricted;
  }

  // ------------------------------------------------------------ remove_dirent

  /** remove_dirent: frees the slot that holds a name. */
  method RemoveDirent(vol: DenyVolume, name: CString, ghost own: Owners)
    returns (st: Status, ghost bi: nat, ghost i: nat)
    requires vol.Valid() && Consistent(vol.View(), own) && |name| < MAX_NAME_LEN
    modifies vol.Footprint()
    ensures vol.Valid()
    ensures st == OK ==> DirentFreed(old(vol.View()), vol.View(), own, bi, i, name)
    ensures st != OK ==> vol.View() == old(vol.View())
    ensures |old(vol.View()).inodes| == MAX_INODES
    ensures vol.Reliable() ==> st == if Named(old(vol.View()), name) then OK else ENOENT
  {
    hide *;
    ghost var v := vol.View();
    DirectoryReadable(v, own);
    ReliableNotFaulty(vol);
    var b, n, data;
    st, b, n, data := FindName(vol, name, own);
    bi, i := b, n;
    if st != OK {
      return;
    }
    EntryNamed(v, DIRENTS_PER_BLOCK * b + n, name, DecodeDirent(data, n).inode);
    FreeEntry(v, own, b, n, name, DecodeDirent(data, n).inode);
    RootIndex(b);
    var root := vol.Node(0);
    st := vol.WriteBlock(root.direct[b], PutDirent(data, n, FreeDirent()));
  }

  /** The entry for a name, in block bi at place i, was freed; nothing else changed. */
  ghost predicate DirentFreed(v: Vol, v': Vol, own: Owners, bi: nat, i: nat, name: Name)
  {
    && |v.inodes| == MAX_INODES && bi < v.inodes[0].blockCount
    && v'.inodes == v.inodes && v'.freeBlocks == v.freeBlocks && FreeSet(v') == FreeSet(v)
    && SlotNamed(v, DIRENTS_PER_BLOCK * bi + i, name) && DirentStored(v, v', own, bi, i, FreeDirent())
  }

  ghost predicate SlotNamed(v: Vol, k: nat, name: Name)
  {
    |v.inodes| == MAX_INODES && Live(v, k) && NameAt(v, k) == name
  }

  lemma FreeEntry(v: Vol, own: Owners, bi: nat, i: nat, name: Name, ino: nat)
    requires Readable(v, own) && |v.inodes| == MAX_INODES && bi < DIRECT_BLOCKS && bi < v.inodes[0].blockCount
             && i < DIRENTS_PER_BLOCK
    requires bi < MAX_FILE_BLOCKS && EntryFor(v, DIRENTS_PER_BLOCK * bi + i, name, ino)
    ensures DirentFreed(v, PutBlock(v, v.inodes[0].direct[bi], PutDirent(Block(v, 0, bi), i, FreeDirent())), own, bi,
            i, name)
    ensures v.inodes[0].direct[bi] < v.total
  {
    hide Readable, Block, PutDirent, FreeDirent, DirentStored, FreeSet, EntryAt;
    PutEntry(v, own, bi, i, FreeDirent());
  }

  lemma DirentFreedFacts(v: Vol, own: Owners, v': Vol, bi: nat, i: nat, name: Name)
    requires Consistent(v, own) && DirentFreed(v, v', own, bi, i, name)
    ensures |v.inodes| == MAX_INODES == |v'.inodes| && Shape(v) && Shape(v') && Tracked(v, v') && Mapping(v', own)
    ensures EntryChanged(v, v', DIRENTS_PER_BLOCK * bi + i, FreeDirent()) && DirSlots(v') == DirSlots(v)
    ensures OtherBlocks(v, v', 0) && v'.inodes == v.inodes && v'.freeBlocks == v.freeBlocks && FreeSet(v') == FreeSet(v)
    ensures v'.freeInodes == v.freeInodes && (forall s :: ValidSlot(s) ==> Ref(v', s) == Ref(v, s))
  {
    hide Consistent, Tracked, Block, EntryAt, FreeSet, PutDirent, EmptyDirBlock, FreeDirent, Live, Mapping,
         BitmapBlocks, Ref;
    DirectoryReadable(v, own);
    RootBlock(v, own, bi);
    ConsistentMapping(v, own);
    StoredTracked(v, v', own, bi, i, FreeDirent());
    StoredEntries(v, v', own, bi, i, FreeDirent());
    MappedMissing(v, own, 0, bi);
  }

  // ------------------------------------------------------ the whole operation

  /** What a successful unlink does: the entry and the file are gone, and exactly the file's blocks are free again. */
  ghost predicate UnlinkEffect(v0: Vol, own0: Owners, v: Vol, own: Owners, name: Name, ino: nat, k: nat)
  {
    && Shape(v0) && 0 < ino < MAX_INODES && v0.freeInodes < INVALID
    && v.inodes == v0.inodes[ino := EmptyInode(FREE, 0)] && v.freeInodes == v0.freeInodes + 1
    && (forall s :: ValidSlot(s) && s.ino != ino ==> Ref(v, s) == Ref(v0, s))
    && (forall i, l :: 0 < i < MAX_INODES && i != ino && 0 <= l < MAX_FILE_BLOCKS ==> Block(v, i, l) == Block(v0, i, l))
    && Restricted(v0, own0, v, own, ino, 0)
    && (NothingPast(v0) ==> NothingPast(v)) && (ZeroTail(v0) ==> ZeroTail(v))
    && Removed(v0, v, k, name, ino) && Consistent(v, own)
  }

  lemma UnlinkTable(v0: Vol, own0: Owners, v: Vol, own: Owners, name: Name, ino: nat, k: nat)
    requires |v0.inodes| == MAX_INODES && DirOk(v0) && UnlinkEffect(v0, own0, v, own, name, ino, k)
             && v0.inodes[0].size == 0
    ensures |v.inodes| == MAX_INODES && DirOk(v) && name in Table(v0) && Table(v) == Table(v0) - {name}
  {
    hide *;
    UnlinkedContents(v0, own0, v, own, name, ino, k);
    RemovedTable(v0, v, k, name, ino);
    RemovedOld(v0, v, k, name, ino);
  }

  lemma RemovedOld(v: Vol, w: Vol, k: nat, name: Name, ino: nat)
    requires Removed(v, w, k, name, ino) && DirOk(v)
    ensures name in Table(v)
  {
    hide EntryAt, Contents, DirOk, Live, EntryChanged;
    assert Named(v, name);
  }

  lemma UnlinkedContents(v0: Vol, own0: Owners, v: Vol, own: Owners, name: Name, ino: nat, k: nat)
    requires UnlinkEffect(v0, own0, v, own, name, ino, k) && |v0.inodes| == MAX_INODES && v0.inodes[0].size == 0
    ensures |v.inodes| == MAX_INODES && ino < MAX_INODES && Removed(v0, v, k, name, ino)
    ensures forall i :: 0 <= i < MAX_INODES && i != ino ==> Contents(v, i) == Contents(v0, i)
  {
    hide Consistent, Block, NothingPast, ZeroTail, Removed, Restricted, Ref;
    forall i | 0 <= i < MAX_INODES && i != ino
      ensures Contents(v, i) == Contents(v0, i)
    {
    }
  }

  /** Freeing the entry and then the inode add up. */
  lemma UnlinkedFrom(v0: Vol, own: Owners, v1: Vol, v: Vol, own': Owners, bi: nat, i: nat, name: Name, ino: nat, k: nat)
    requires Consistent(v0, own) && DirentFreed(v0, v1, own, bi, i, name) && Freed(v1, own, v, own', ino)
    requires EntryFor(v0, k, name, ino)
    ensures UnlinkEffect(v0, own, v, own', name, ino, k) && Tracked(v0, v)
  {
    hide *;
    ConsistentDirectory(v0, own);
    DirentFreedFacts(v0, own, v1, bi, i, name);
    FreedFacts(v1, own, v, own', ino);
    UnlinkedSlot(v0, v1, own, bi, i, name, ino, k);
    TrackedTransitive(v0, v1, v);
    FreedDirectory(v0, v1, v, own, own', name, ino, k);
    UnlinkedInodes(v0, own, v, ino);
    UnlinkedBlocks(v0, v1, v, ino);
    UnlinkedRestricted(v0, v1, v, own, own', ino);
    RemovedDirOk(v0, v, k, name, ino);
    UnlinkedTails(v0, v, ino);
    CreatedConsistent(v, own');
    UnlinkEffectIntro(v0, own, v, own', name, ino, k);
  }

  lemma FreedFacts(v: Vol, own: Owners, w: Vol, own': Owners, ino: nat)
    requires Freed(v, own, w, own', ino)
    ensures |v.inodes| == MAX_INODES == |w.inodes| && ino < MAX_INODES && Tracked(v, w) && Mapping(w, own') && Shape(w)
    ensures w.inodes == v.inodes[ino := EmptyInode(FREE, 0)] && w.freeInodes == v.freeInodes + 1
            && v.freeInodes < INVALID
    ensures OtherBlocks(v, w, ino) && Restricted(v, own, w, own', ino, 0)
  {
    hide Core, Counted, NoHollow, OtherBlocks, Restricted, BitmapBlocks;
    MappingFacts(w, own');
  }

  /** The entry that lookup found is the one that was removed. */
  lemma UnlinkedSlot(v0: Vol, v1: Vol, own: Owners, bi: nat, i: nat, name: Name, ino: nat, k: nat)
    requires |v0.inodes| == MAX_INODES && DirOk(v0) && DirentFreed(v0, v1, own, bi, i, name)
             && EntryFor(v0, k, name, ino)
    ensures k == DIRENTS_PER_BLOCK * bi + i && IsFile(v0, ino)
  {
    hide EntryAt, DirentStored, Listed, FreeSet;
  }

  lemma FreedDirectory(v0: Vol, v1: Vol, v: Vol, own: Owners, own': Owners, name: Name, ino: nat, k: nat)
    requires |v0.inodes| == MAX_INODES == |v1.inodes| == |v.inodes| && 0 < ino < MAX_INODES
             && EntryFor(v0, k, name, ino)
    requires EntryChanged(v0, v1, k, FreeDirent()) && DirSlots(v1) == DirSlots(v0) && v1.inodes == v0.inodes
    requires v.inodes == v1.inodes[ino := EmptyInode(FREE, 0)] && OtherBlocks(v1, v, ino)
    ensures Removed(v0, v, k, name, ino)
  {
    hide Block, Ref, DecodeDirent, FreeDirent, EntryFor;
    forall j | 0 <= j < DIRENTS_PER_BLOCK * DIRECT_BLOCKS
      ensures EntryAt(v, j) == EntryAt(v1, j)
    {
      assert Block(v, 0, j / DIRENTS_PER_BLOCK) == Block(v1, 0, j / DIRENTS_PER_BLOCK);
    }
    hide EntryAt;
  }

  lemma UnlinkedInodes(v0: Vol, own: Owners, v: Vol, ino: nat)
    requires |v0.inodes| == MAX_INODES == |v.inodes| && Consistent(v0, own) && IsFile(v0, ino) && 0 < ino
    requires v.inodes == v0.inodes[ino := EmptyInode(FREE, 0)] && v.freeInodes == v0.freeInodes + 1
    ensures Shaped(v) && v.freeInodes == |FreeInodeSet(v)| && v0.inodes[0].size == 0
  {
    hide Mapping, DirOk, InodeShape, NoBlocks, Interval;
    RootShape(v0.inodes[0]);
    FreeShapeIntro(v.inodes[ino], ino);
    forall i | 0 <= i < MAX_INODES
      ensures InodeShape(v.inodes[i], i)
    {
    }
    assert FreeInodeSet(v) == FreeInodeSet(v0) + {ino};
    assert ino !in FreeInodeSet(v0);
  }

  lemma UnlinkedBlocks(v0: Vol, v1: Vol, v: Vol, ino: nat)
    requires |v0.inodes| == MAX_INODES == |v1.inodes| == |v.inodes| && OtherBlocks(v0, v1, 0) && OtherBlocks(v1, v, ino)
    requires forall s :: ValidSlot(s) ==> Ref(v1, s) == Ref(v0, s)
    ensures forall s :: ValidSlot(s) && s.ino != ino ==> Ref(v, s) == Ref(v0, s)
    ensures forall i, l :: 0 < i < MAX_INODES && i != ino && 0 <= l < MAX_FILE_BLOCKS ==>
              Block(v, i, l) == Block(v0, i, l)
  {
    hide Block, Ref;
  }

  lemma UnlinkedRestricted(v0: Vol, v1: Vol, v: Vol, own: Owners, own': Owners, ino: nat)
    requires |v0.inodes| == MAX_INODES == |v1.inodes| && ino < MAX_INODES && Restricted(v1, own, v, own', ino, 0)
    requires FreeSet(v1) == FreeSet(v0) && v1.freeBlocks == v0.freeBlocks
    ensures Restricted(v0, own, v, own', ino, 0)
  {
    hide FreeSet;
  }

  lemma UnlinkedTails(v0: Vol, v: Vol, ino: nat)
    requires |v0.inodes| == MAX_INODES == |v.inodes| && 0 < ino < MAX_INODES
             && v.inodes == v0.inodes[ino := EmptyInode(FREE, 0)]
    requires forall i :: IsFile(v0, i) ==> i != 0
    requires forall s :: ValidSlot(s) && s.ino != ino ==> Ref(v, s) == Ref(v0, s)
    requires forall i, l :: 0 < i < MAX_INODES && i != ino && 0 <= l < MAX_FILE_BLOCKS ==>
              Block(v, i, l) == Block(v0, i, l)
    ensures (NothingPast(v0) ==> NothingPast(v)) && (ZeroTail(v0) ==> ZeroTail(v))
  {
    hide Block, Ref;
    forall i | IsFile(v, i)
      ensures IsFile(v0, i) && i != ino && i != 0 && v.inodes[i] == v0.inodes[i]
    {
    }
    forall i, lb | IsFile(v, i) && 0 <= lb < MAX_FILE_BLOCKS
      ensures Phys(v, i, lb) == Phys(v0, i, lb)
    {
    }
    forall i, k | IsFile(v, i) && 0 <= k < MAX_BYTES
      ensures ByteAt(v, i, k) == ByteAt(v0, i, k)
    {
    }
  }

  lemma UnlinkEffectIntro(v0: Vol, own0: Owners, v: Vol, own: Owners, name: Name, ino: nat, k: nat)
    requires Shape(v0) && 0 < ino < MAX_INODES && v0.freeInodes < INVALID && |v.inodes| == MAX_INODES
    requires v.inodes == v0.inodes[ino := EmptyInode(FREE, 0)] && v.freeInodes == v0.freeInodes + 1
    requires forall s :: ValidSlot(s) && s.ino != ino ==> Ref(v, s) == Ref(v0, s)
    requires forall i, l :: 0 < i < MAX_INODES && i != ino && 0 <= l < MAX_FILE_BLOCKS ==>
              Block(v, i, l) == Block(v0, i, l)
    requires Restricted(v0, own0, v, own, ino, 0)
    requires (NothingPast(v0) ==> NothingPast(v)) && (ZeroTail(v0) ==> ZeroTail(v))
    requires Removed(v0, v, k, name, ino) && Consistent(v, own)
    ensures UnlinkEffect(v0, own0, v, own, name, ino, k)
  {
    hide Consistent, Block, Ref, NothingPast, ZeroTail, Removed, Restricted, BitmapBlocks;
  }

  lemma NameTooLong(v: Vol, own: Owners, name: Name)
    requires |v.inodes| == MAX_INODES && Consistent(v, own) && Named(v, name)
    ensures 0 < |name| < MAX_NAME_LEN
  {
    hide Mapping, Shaped, FreeInodeSet, EntryAt, Listed;
    var k :| Live(v, k) && NameAt(v, k) == name;
    assert ValidDirent(EntryAt(v, k));
  }

  /** denyfs_vol_unlink. */
  method VolUnlink(vol: DenyVolume, name: CString, ghost own: Owners)
    returns (st: Status, ghost own': Owners, ghost ino: nat, ghost k: nat)
    requires vol.Valid() && Consistent(vol.View(), own) && Clean(vol.View())
    modifies vol.Footprint()
    ensures vol.Valid() && Clean(vol.View()) && vol.View().foreign == old(vol.View()).foreign
    ensures |old(vol.View()).inodes| == MAX_INODES
    ensures st == OK ==>
              UnlinkEffect(old(vol.View()), own, vol.View(), own', name, ino, k) && OnDisk(vol.View(), vol.mac)
    ensures vol.Reliable() ==> st == if Named(old(vol.View()), name) then OK else ENOENT
    ensures st != OK && st != EIO ==> vol.View() == old(vol.View())
  {
    hide *;
    ghost var v0 := vol.View();
    DirectoryReadable(v0, own);
    ReliableNotFaulty(vol);
    own' := own;
    if Named(v0, name) { NameTooLong(v0, own, name); }
    var found;
    st, found, k := VolLookup(vol, name, own);
    ino := found;
    if st != OK {
      st := ENOENT;
      return;
    }
    EntryNamed(v0, k, name, ino);
    NameTooLong(v0, own, name);
    ghost var bi, i;
    st, bi, i := RemoveDirent(vol, name, own);
    if st != OK {
      return;
    }
    st, own' := FreeFile(vol, name, found, v0, own, bi, i, k);
  }

  /** Frees the inode and its blocks, and flushes. */
  method FreeFile(vol: DenyVolume, name: CString, ino: nat, ghost v0: Vol, ghost own: Owners, ghost bi: nat,
                  ghost i: nat, ghost k: nat)
    returns (st: Status, ghost own': Owners)
    requires vol.Valid() && Consistent(v0, own) && Clean(v0) && EntryFor(v0, k, name, ino)
    requires DirentFreed(v0, vol.View(), own, bi, i, name)
    modifies vol.Footprint()
    ensures vol.Valid() && Clean(vol.View()) && vol.View().foreign == v0.foreign
    ensures st == OK ==> UnlinkEffect(v0, own, vol.View(), own', name, ino, k) && OnDisk(vol.View(), vol.mac)
    ensures vol.Reliable() ==> st == OK
    ensures st == OK || st == EIO
  {
    hide *;
    ghost var v1 := vol.View();
    ReliableNotFaulty(vol);
    FreeFileStart(v0, own, v1, bi, i, name, ino, k);
    st, own' := FreeInodeBlocks(vol, ino, own);
    ghost var v := vol.View();
    TrackedTransitive(v0, v1, v);
    TrackedClean(v0, v);
    TrackedForeign(v0, v);
    if st != OK {
      st := EIO;
      return;
    }
    UnlinkedFrom(v0, own, v1, v, own', bi, i, name, ino, k);
    st := VolFlush(vol);
    UnlinkEffectMeta(v0, own, v, own', name, ino, k, vol.View());
    if st != OK {
      st := EIO;
    }
  }

  lemma FreeFileStart(v0: Vol, own: Owners, v1: Vol, bi: nat, i: nat, name: Name, ino: nat, k: nat)
    requires Consistent(v0, own) && DirentFreed(v0, v1, own, bi, i, name) && EntryFor(v0, k, name, ino)
    ensures Tracked(v0, v1) && Mapping(v1, own) && ino < MAX_INODES && v1.freeInodes < INVALID
  {
    hide *;
    ConsistentDirectory(v0, own);
    DirentFreedFacts(v0, own, v1, bi, i, name);
    UnlinkedSlot(v0, v1, own, bi, i, name, ino, k);
    FileBound(v0, ino);
    FreeInodeBound(v0);
  }

  lemma FileBound(v: Vol, ino: nat)
    requires |v.inodes| == MAX_INODES && IsFile(v, ino)
    ensures ino < MAX_INODES
  {
  }

  lemma FreeInodeBound(v: Vol)
    requires |v.inodes| == MAX_INODES
    ensures |FreeInodeSet(v)| <= MAX_INODES < INVALID
  {
    hide Interval;
    SubsetSize(FreeInodeSet(v), Interval(0, MAX_INODES));
  }

  lemma UnlinkEffectMeta(v0: Vol, own0: Owners, v: Vol, own: Owners, name: Name, ino: nat, k: nat, w: Vol)
    requires UnlinkEffect(v0, own0, v, own, name, ino, k) && MetaWritten(v, w)
    ensures UnlinkEffect(v0, own0, w, own, name, ino, k) && w.foreign == v.foreign
  {
    hide *;
    UnlinkEffectFacts(v0, own0, v, own, name, ino, k);
    MetaWrittenShape(v, w);
    MetaWrittenFiles(v, own, w);
    MetaWrittenRefs(v, own, w);
    MetaWrittenBlocks(v, own, w);
    RemovedMeta(v0, v, k, name, ino, w);
    RestrictedMeta(v0, own0, v, own, ino, 0, w);
    UnlinkEffectIntro(v0, own0, w, own, name, ino, k);
  }

  lemma MetaWrittenBlocks(v: Vol, own: Owners, w: Vol)
    requires Consistent(v, own) && MetaWritten(v, w)
    ensures |v.inodes| == MAX_INODES == |w.inodes|
    ensures forall i, l :: 0 <= i < MAX_INODES && 0 <= l < MAX_FILE_BLOCKS ==> Block(w, i, l) == Block(v, i, l)
  {
    hide Mapping, MetaWritten, Shaped, DirOk, Block, FreeInodeSet;
    MetaWrittenShape(v, w);
    MetaWrittenMapping(v, own, w);
  }

  lemma UnlinkEffectFacts(v0: Vol, own0: Owners, v: Vol, own: Owners, name: Name, ino: nat, k: nat)
    requires UnlinkEffect(v0, own0, v, own, name, ino, k)
    ensures Shape(v0) && 0 < ino < MAX_INODES && v0.freeInodes < INVALID && |v0.inodes| == MAX_INODES == |v.inodes|
    ensures v.inodes == v0.inodes[ino := EmptyInode(FREE, 0)] && v.freeInodes == v0.freeInodes + 1
    ensures forall s :: ValidSlot(s) && s.ino != ino ==> Ref(v, s) == Ref(v0, s)
    ensures forall i, l :: 0 < i < MAX_INODES && i != ino && 0 <= l < MAX_FILE_BLOCKS ==>
              Block(v, i, l) == Block(v0, i, l)
    ensures Restricted(v0, own0, v, own, ino, 0)
    ensures (NothingPast(v0) ==> NothingPast(v)) && (ZeroTail(v0) ==> ZeroTail(v))
    ensures Removed(v0, v, k, name, ino) && Consistent(v, own)
  {
    hide Consistent, Block, Ref, NothingPast, ZeroTail, Removed, Restricted, BitmapBlocks;
  }

  lemma RemovedMeta(v0: Vol, v: Vol, k: nat, name: Name, ino: nat, w: Vol)
    requires Removed(v0, v, k, name, ino) && |v.inodes| == MAX_INODES == |w.inodes| && w.inodes == v.inodes
             && SameDirectory(v, w)
    ensures Removed(v0, w, k, name, ino)
  {
    hide SameDirectory, EntryAt, EntryFor;
    DirectoryFrame(v, w);
  }
}
