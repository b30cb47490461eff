/** validate_loaded_metadata: accepts a volume exactly if it is sound. */
module Checker {
  import opened Base
  import opened Codec
  import opened FileMap
  import opened Ownership
  import opened Growth
  import opened FileSystem
  import opened FileOps
  import opened Persist
  import opened Volume
  import opened BlockMap
  import opened Directory
  import opened Create
  import opened Truncate
  import opened Flush
  import opened Scan

  /** The claimed bitmap and the number of claims. */
  datatype Claims = Claims(bits: seq<bool>, count: nat)

  /** Everything before rank r of inode ino has been claimed. */
  ghost predicate ClaimState(v: Vol, cl: Claims, own: Owners, ino: nat, r: nat)
  {
    && Shape(v) && |cl.bits| == |v.bitmap| && cl.count == |own|
    && (forall b :: 0 <= b < |cl.bits| ==> (cl.bits[b] <==> b in own))
    && Visited(v, own, ino, r)
  }

  /** As ClaimState, and n blocks of the file below lb are mapped, none of them past its end. */
  ghost predicate Checked(v: Vol, cl: Claims, own: Owners, ino: nat, r: nat, lb: nat, n: nat)
  {
    ino < MAX_INODES && ClaimState(v, cl, own, ino, r) && FileState(v, ino, lb, n)
  }

  lemma ClaimShape(v: Vol, cl: Claims, own: Owners, ino: nat, r: nat)
    requires ClaimState(v, cl, own, ino, r)
    ensures Shape(v) && |v.inodes| == MAX_INODES && |cl.bits| == |v.bitmap| && |v.disk| == v.total <= INVALID
  {
    hide BitmapBlocks, Visited;
  }

  lemma ClaimTurn(v: Vol, cl: Claims, own: Owners, ino: nat, l: Loc, b: u32)
    requires ino < MAX_INODES && ValidLoc(l) && ClaimState(v, cl, own, ino, Rank(l))
    requires |v.inodes| == MAX_INODES && Ref(v, Slot(ino, l)) == b != INVALID
    ensures Used(v, b) ==> b < |cl.bits|
    ensures !Used(v, b) || cl.bits[b] ==> !Acceptable(v)
    ensures Used(v, b) && !cl.bits[b] ==>
              ClaimState(v, Claims(cl.bits[b := true], cl.count + 1), own[b := Slot(ino, l)], ino, Rank(l) + 1)
  {
    hide Ref, Rank, BitmapBlocks, Visited, Acceptable;
    if !Used(v, b) || cl.bits[b] {
      VisitFails(v, own, ino, l, b);
    } else {
      VisitBlock(v, own, ino, l, b);
    }
  }

  /** claim_metadata_block. */
  method ClaimBlock(vol: DenyVolume, cl: Claims, b: u32, ghost own: Owners, ghost ino: nat, ghost l: Loc)
    returns (ok: bool, cl': Claims, ghost own': Owners)
    requires vol.Valid() && ino < MAX_INODES && ValidLoc(l) && ClaimState(vol.View(), cl, own, ino, Rank(l))
    requires |vol.View().inodes| == MAX_INODES && Ref(vol.View(), Slot(ino, l)) == b != INVALID
    ensures vol.Valid() && vol.View() == old(vol.View())
    ensures ok ==> Used(vol.View(), b) && ClaimState(vol.View(), cl', own', ino, Rank(l) + 1)
    ensures !ok ==> !Acceptable(vol.View())
  {
    hide *;
    ClaimTurn(vol.View(), cl, own, ino, l, b);
    cl', own' := cl, own;
    if !vol.InUse(b) || cl.bits[b] {
      return false, cl', own';
    }
    ok, cl', own' := true, Claims(cl.bits[b := true], cl.count + 1), own[b := Slot(ino, l)];
  }

  lemma ClaimHole(v: Vol, cl: Claims, own: Owners, ino: nat, l: Loc)
    requires ino < MAX_INODES && ValidLoc(l) && ClaimState(v, cl, own, ino, Rank(l))
    requires |v.inodes| == MAX_INODES && Ref(v, Slot(ino, l)) == INVALID
    ensures ClaimState(v, cl, own, ino, Rank(l) + 1)
  {
    hide Ref, Rank, BitmapBlocks, Visited;
    VisitHole(v, own, ino, l);
  }

  lemma ClaimHoles(v: Vol, cl: Claims, own: Owners, ino: nat, r: nat, r': nat)
    requires ino < MAX_INODES && r <= r' && ClaimState(v, cl, own, ino, r)
    requires |v.inodes| == MAX_INODES && forall l :: ValidLoc(l) && r <= Rank(l) < r' ==>
              Ref(v, Slot(ino, l)) == INVALID
    ensures ClaimState(v, cl, own, ino, r')
  {
    hide Ref, Rank, BitmapBlocks, Visited;
    VisitHoles(v, own, ino, r, r');
  }

  // ------------------------------------------------------------ data pointers

  lemma DataTurn(v: Vol, cl: Claims, own: Owners, ino: nat, lb: nat, n: nat, b: u32)
    requires lb < MAX_FILE_BLOCKS && Checked(v, cl, own, ino, Rank(Data(lb)), lb, n)
    requires |v.inodes| == MAX_INODES && IsFile(v, ino) && Phys(v, ino, lb) == b
    ensures ino < MAX_INODES && ValidLoc(Data(lb)) && Ref(v, Slot(ino, Data(lb))) == b
    ensures b == INVALID ==> Checked(v, cl, own, ino, Rank(Data(lb)) + 1, lb + 1, n)
    ensures b != INVALID ==> ClaimState(v, cl, own, ino, Rank(Data(lb)))
    ensures b != INVALID && lb >= BlocksFor(v.inodes[ino].size) ==> !Acceptable(v)
    ensures b != INVALID && lb < BlocksFor(v.inodes[ino].size) ==> FileState(v, ino, lb + 1, n + 1)
  {
    hide Get, Rank, BlocksFor, Acceptable, ClaimState, FileState;
    FileStep(v, ino, lb, n);
    if b == INVALID {
      ClaimHole(v, cl, own, ino, Data(lb));
    } else if lb >= BlocksFor(v.inodes[ino].size) {
      PastFails(v, ino, lb);
    }
  }

  /** One data pointer of a file. */
  method CheckData(vol: DenyVolume, ino: nat, lb: nat, b: u32, fileBlocks: nat, cl: Claims, n: nat, ghost own: Owners)
    returns (ok: bool, cl': Claims, n': nat, ghost own': Owners)
    requires vol.Valid() && lb < MAX_FILE_BLOCKS && Checked(vol.View(), cl, own, ino, Rank(Data(lb)), lb, n)
    requires |vol.View().inodes| == MAX_INODES && IsFile(vol.View(), ino)
             && fileBlocks == BlocksFor(vol.View().inodes[ino].size)
    requires Phys(vol.View(), ino, lb) == b
    ensures vol.Valid() && vol.View() == old(vol.View())
    ensures ok ==> Checked(vol.View(), cl', own', ino, Rank(Data(lb)) + 1, lb + 1, n')
    ensures !ok ==> !Acceptable(vol.View())
  {
    hide *;
    ok, cl', n', own' := true, cl, n, own;
    DataTurn(vol.View(), cl, own, ino, lb, n, b);
    if b == INVALID {
      return;
    }
    if lb >= fileBlocks {
      ok := false;
      return;
    }
    ok, cl', own' := ClaimBlock(vol, cl, b, own, ino, Data(lb));
    n' := n + 1;
    if ok {
      CheckedIntro(vol.View(), cl', own', ino, Rank(Data(lb)) + 1, lb + 1, n');
    }
  }

  lemma CheckedIntro(v: Vol, cl: Claims, own: Owners, ino: nat, r: nat, lb: nat, n: nat)
    requires |v.inodes| == MAX_INODES && ino < MAX_INODES && ClaimState(v, cl, own, ino, r) && FileState(v, ino, lb, n)
    ensures Checked(v, cl, own, ino, r, lb, n)
  {
  }

  lemma CheckedFacts(v: Vol, cl: Claims, own: Owners, ino: nat, r: nat, lb: nat, n: nat)
    requires Checked(v, cl, own, ino, r, lb, n)
    ensures ino < MAX_INODES == |v.inodes| && ClaimState(v, cl, own, ino, r) && FileState(v, ino, lb, n) && Shape(v)
  {
    hide BitmapBlocks, Visited, FileState;
  }

  lemma DirectRank(v: Vol, ino: nat, i: nat)
    requires |v.inodes| == MAX_INODES && ino < MAX_INODES && i < DIRECT_BLOCKS
    ensures i < MAX_FILE_BLOCKS && Rank(Data(i)) == i && Phys(v, ino, i) == v.inodes[ino].direct[i] && ValidLoc(Data(i))
    ensures Ref(v, Slot(ino, Data(i))) == v.inodes[ino].direct[i]
  {
  }

  /** The direct pointers of a file. */
  method CheckDirects(vol: DenyVolume, ino: nat, fileBlocks: nat, cl: Claims, ghost own: Owners)
    returns (ok: bool, cl': Claims, n: nat, ghost own': Owners)
    requires vol.Valid() && Checked(vol.View(), cl, own, ino, 0, 0, 0)
    requires |vol.View().inodes| == MAX_INODES && IsFile(vol.View(), ino)
             && fileBlocks == BlocksFor(vol.View().inodes[ino].size)
    ensures vol.Valid() && vol.View() == old(vol.View())
    ensures ok ==> Checked(vol.View(), cl', own', ino, DIRECT_BLOCKS, DIRECT_BLOCKS, n)
    ensures !ok ==> !Acceptable(vol.View())
  {
    hide *;
    ok, cl', n, own' := true, cl, 0, own;
    ghost var v := vol.View();
    CheckedFacts(v, cl, own, ino, 0, 0, 0);
    var i := 0;
    while i < DIRECT_BLOCKS
      invariant i <= DIRECT_BLOCKS && vol.Valid() && vol.View() == v && ok
      invariant Checked(v, cl', own', ino, i, i, n)
    {
      DirectRank(v, ino, i);
      var inode := vol.Node(ino);
      DirectBounds(inode, i);
      ok, cl', n, own' := CheckData(vol, ino, i, inode.direct[i], fileBlocks, cl', n, own');
      if !ok {
        return;
      }
      i := i + 1;
    }
  }

  // ------------------------------------------------------------------- tables

  /** Slot (ino, t) refers to a table whose entries map blocks from `first` on and come right after it in the scan. */
  ghost predicate TableEntries(v: Vol, ino: nat, t: Loc, table: Pointers, first: nat)
  {
    && |v.inodes| == MAX_INODES && ino < MAX_INODES && ValidLoc(t) && IsTable(t) && !t.Dbl?
    && forall i :: 0 <= i < POINTERS_PER_BLOCK ==> EntryIs(v, ino, t, table[i], first, i)
  }

  ghost predicate EntryIs(v: Vol, ino: nat, t: Loc, p: u32, first: nat, i: nat)
    requires |v.inodes| == MAX_INODES && ino < MAX_INODES && IsTable(t)
  {
    && first + i < MAX_FILE_BLOCKS && EntryLoc(t, i) == Data(first + i) && Phys(v, ino, first + i) == p
    && Rank(Data(first + i)) == Rank(t) + 1 + i
  }

  lemma TableEntriesOf(v: Vol, ino: nat, t: Loc, first: nat)
    requires |v.inodes| == MAX_INODES && ino < MAX_INODES && ValidLoc(t) && IsTable(t) && !t.Dbl?
             && EntryLoc(t, 0) == Data(first)
    requires Ref(v, Slot(ino, t)) < |v.disk|
    ensures TableEntries(v, ino, t, TableAt(v, Ref(v, Slot(ino, t))), first)
    ensures Rank(Data(first)) == Rank(t) + 1
  {
    hide Ptr;
    forall i | 0 <= i < POINTERS_PER_BLOCK
      ensures EntryIs(v, ino, t, TableAt(v, Ref(v, Slot(ino, t)))[i], first, i)
    {
      EntryLocHome(t, i);
      RefViaHome(v, Slot(ino, Data(first + i)));
    }
  }

  lemma EntriesTurn(v: Vol, ino: nat, t: Loc, table: Pointers, first: nat, i: nat)
    requires TableEntries(v, ino, t, table, first) && i < POINTERS_PER_BLOCK
    ensures |v.inodes| == MAX_INODES && ino < MAX_INODES && first + i < MAX_FILE_BLOCKS && |table| == POINTERS_PER_BLOCK
    ensures Phys(v, ino, first + i) == table[i]
    ensures Rank(Data(first + i)) == Rank(t) + 1 + i
  {
    hide Rank, Phys;
    assert EntryIs(v, ino, t, table[i], first, i);
  }

  lemma EntriesEnd(v: Vol, ino: nat, t: Loc, table: Pointers, first: nat, n: nat)
    requires TableEntries(v, ino, t, table, first)
    requires n == 0 <==> forall j :: 0 <= j < POINTERS_PER_BLOCK ==> table[j] == INVALID
    ensures ValidSlot(Slot(ino, t)) && IsTable(t)
    ensures n != 0 ==> TableOk(v, Slot(ino, t))
    ensures n == 0 && Ref(v, Slot(ino, t)) != INVALID ==> !Acceptable(v)
  {
    hide Rank, Ref, Acceptable, EntryLoc;
    var s := Slot(ino, t);
    forall i: nat | i < POINTERS_PER_BLOCK
      ensures EntryUsed(v, s, i) <==> table[i] != INVALID
    {
      assert EntryIs(v, ino, t, table[i], first, i);
    }
    if n == 0 && Ref(v, s) != INVALID { HollowFails(v, s); }
  }

  /** The entries of a single-indirect or child table, and how many are in use. */
  method CheckEntries(vol: DenyVolume, ino: nat, table: Pointers, first: nat, fileBlocks: nat, cl: Claims, n: nat,
                      ghost own: Owners, ghost t: Loc)
    returns (ok: bool, cl': Claims, n': nat, entries: nat, ghost own': Owners)
    requires vol.Valid() && TableEntries(vol.View(), ino, t, table, first)
    requires Checked(vol.View(), cl, own, ino, Rank(t) + 1, first, n)
    requires |vol.View().inodes| == MAX_INODES && IsFile(vol.View(), ino)
             && fileBlocks == BlocksFor(vol.View().inodes[ino].size)
    ensures vol.Valid() && vol.View() == old(vol.View())
    ensures ok ==> Checked(vol.View(), cl', own', ino, Rank(t) + 1 + POINTERS_PER_BLOCK, first + POINTERS_PER_BLOCK, n')
    ensures ok ==> (entries == 0 <==> forall j :: 0 <= j < POINTERS_PER_BLOCK ==> table[j] == INVALID)
    ensures !ok ==> !Acceptable(vol.View())
  {
    hide *;
    ok, cl', n', entries, own' := true, cl, n, 0, own;
    ghost var v := vol.View();
    TableSize(table);
    var i := 0;
    while i < POINTERS_PER_BLOCK
      invariant i <= POINTERS_PER_BLOCK == |table| && vol.Valid() && vol.View() == v && ok
      invariant Checked(v, cl', own', ino, Rank(t) + 1 + i, first + i, n')
      invariant entries == 0 <==> forall j :: 0 <= j < i ==> table[j] == INVALID
    {
      EntriesTurn(v, ino, t, table, first, i);
      ok, cl', n', own' := CheckData(vol, ino, first + i, table[i], fileBlocks, cl', n', own');
      if !ok {
        return;
      }
      if table[i] != INVALID {
        entries := entries + 1;
      }
      i := i + 1;
    }
  }

  /** What the scan of an absent table skips. */
  lemma AbsentTable(v: Vol, cl: Claims, own: Owners, ino: nat, t: Loc, first: nat, n: nat)
    requires |v.inodes| == MAX_INODES && ino < MAX_INODES && ValidLoc(t) && (t.Ind? || t.Child?)
             && EntryLoc(t, 0) == Data(first)
    requires Ref(v, Slot(ino, t)) == INVALID && Checked(v, cl, own, ino, Rank(t), first, n)
    ensures Checked(v, cl, own, ino, Rank(t) + 1 + POINTERS_PER_BLOCK, first + POINTERS_PER_BLOCK, n)
  {
    hide Ref, Rank, ClaimState, FileState;
    CheckedFacts(v, cl, own, ino, Rank(t), first, n);
    forall l | ValidLoc(l) && Rank(t) <= Rank(l) < Rank(t) + 1 + POINTERS_PER_BLOCK
      ensures Ref(v, Slot(ino, l)) == INVALID
    {
      AbsentSlot(v, cl, own, ino, t, l);
    }
    ClaimHoles(v, cl, own, ino, Rank(t), Rank(t) + 1 + POINTERS_PER_BLOCK);
    forall lb | first <= lb < first + POINTERS_PER_BLOCK && lb < MAX_FILE_BLOCKS
      ensures Phys(v, ino, lb) == INVALID
    {
      EntryRank(t, first, lb - first);
      AbsentSlot(v, cl, own, ino, t, Data(lb));
    }
    FileHoles(v, ino, first, first + POINTERS_PER_BLOCK, n);
  }

  lemma EntryRank(t: Loc, first: nat, i: nat)
    requires ValidLoc(t) && (t.Ind? || t.Child?) && EntryLoc(t, 0) == Data(first) && i < POINTERS_PER_BLOCK
    ensures EntryLoc(t, i) == Data(first + i) && ValidLoc(EntryLoc(t, i)) && Home(EntryLoc(t, i)) == Some(t)
    ensures Rank(EntryLoc(t, i)) == Rank(t) + 1 + i
  {
    EntryLocHome(t, i);
  }

  lemma AbsentSlot(v: Vol, cl: Claims, own: Owners, ino: nat, t: Loc, l: Loc)
    requires |v.inodes| == MAX_INODES && ino < MAX_INODES && ValidLoc(t) && (t.Ind? || t.Child?)
    requires Ref(v, Slot(ino, t)) == INVALID && Shape(v) && ValidLoc(l)
             && Rank(t) <= Rank(l) <= Rank(t) + POINTERS_PER_BLOCK
    ensures Ref(v, Slot(ino, l)) == INVALID
  {
    hide Ref, Ptr, BitmapBlocks, Rank;
    if Rank(l) == Rank(t) {
      RankInjective(l, t);
    } else {
      var i := Rank(l) - Rank(t) - 1;
      EntryRank(t, if t.Ind? then DIRECT_BLOCKS else DoubleBlock(t.outer, 0), i);
      RankInjective(l, EntryLoc(t, i));
      RefViaHome(v, Slot(ino, l));
    }
  }

  lemma SingleRanks()
    ensures Rank(Ind) == DIRECT_BLOCKS && EntryLoc(Ind, 0) == Data(DIRECT_BLOCKS) && ValidLoc(Ind) && IsTable(Ind)
    ensures DIRECT_BLOCKS + 1 + POINTERS_PER_BLOCK == Rank(Dbl) && DIRECT_BLOCKS + POINTERS_PER_BLOCK == SINGLE_END
    ensures Rank(Dbl) + 1 == Rank(Child(0)) && ValidLoc(Dbl) && IsTable(Dbl) && DoubleBlock(0, 0) == SINGLE_END
  {
  }

  lemma FieldRefs(v: Vol, ino: nat)
    requires |v.inodes| == MAX_INODES && ino < MAX_INODES
    ensures Ref(v, Slot(ino, Ind)) == v.inodes[ino].indirect && Ref(v, Slot(ino, Dbl)) == v.inodes[ino].double
  {
  }

  lemma TableStart(v: Vol, cl: Claims, own: Owners, ino: nat, t: Loc, first: nat, n: nat, b: u32)
    requires |v.inodes| == MAX_INODES && ino < MAX_INODES && ValidLoc(t) && (t.Ind? || t.Child?)
             && EntryLoc(t, 0) == Data(first)
    requires Ref(v, Slot(ino, t)) == b && Used(v, b) && Shape(v) && FileState(v, ino, first, n)
             && ClaimState(v, cl, own, ino, Rank(t) + 1)
    ensures TableEntries(v, ino, t, TableAt(v, b), first) && Checked(v, cl, own, ino, Rank(t) + 1, first, n)
  {
    hide Ref, Rank, BitmapBlocks, ClaimState, FileState, TableEntries, EntryLoc;
    TableEntriesOf(v, ino, t, first);
  }

  /** The single-indirect table of a file and what it maps. */
  method CheckSingle(vol: DenyVolume, ino: nat, fileBlocks: nat, cl: Claims, n: nat, ghost own: Owners)
    returns (ok: bool, cl': Claims, n': nat, ghost own': Owners)
    requires vol.Valid() && Checked(vol.View(), cl, own, ino, DIRECT_BLOCKS, DIRECT_BLOCKS, n)
    requires |vol.View().inodes| == MAX_INODES && IsFile(vol.View(), ino)
             && fileBlocks == BlocksFor(vol.View().inodes[ino].size)
    ensures vol.Valid() && vol.View() == old(vol.View())
    ensures ok ==>
              Checked(vol.View(), cl', own', ino, Rank(Dbl), SINGLE_END, n') && ino < MAX_INODES
                 && TableOk(vol.View(), Slot(ino, Ind))
    ensures !ok && !vol.faulty ==> !Acceptable(vol.View())
  {
    hide *;
    ghost var v := vol.View();
    CheckedFacts(v, cl, own, ino, DIRECT_BLOCKS, DIRECT_BLOCKS, n);
    SingleRanks();
    FieldRefs(v, ino);
    var table := vol.Node(ino).indirect;
    if table == INVALID {
      AbsentTable(v, cl, own, ino, Ind, DIRECT_BLOCKS, n);
      AbsentOk(v, Slot(ino, Ind));
      return true, cl, n, own;
    }
    ok, cl', n', own' := CheckTable(vol, ino, DIRECT_BLOCKS, table, fileBlocks, cl, n, own, Ind);
  }

  lemma AbsentOk(v: Vol, t: Slot)
    requires |v.inodes| == MAX_INODES && ValidSlot(t) && IsTable(t.loc) && Ref(v, t) == INVALID
    ensures TableOk(v, t)
  {
  }

  /** A table of data pointers: its own block, its entries, and that it has one. */
  method CheckTable(vol: DenyVolume, ino: nat, first: nat, table: u32, fileBlocks: nat, cl: Claims, n: nat,
                    ghost own: Owners, ghost t: Loc)
    returns (ok: bool, cl': Claims, n': nat, ghost own': Owners)
    requires vol.Valid() && |vol.View().inodes| == MAX_INODES && ino < MAX_INODES && ValidLoc(t) && (t.Ind? || t.Child?)
    requires EntryLoc(t, 0) == Data(first) && Ref(vol.View(), Slot(ino, t)) == table != INVALID
    requires Checked(vol.View(), cl, own, ino, Rank(t), first, n)
    requires IsFile(vol.View(), ino) && fileBlocks == BlocksFor(vol.View().inodes[ino].size)
    ensures vol.Valid() && vol.View() == old(vol.View()) && ValidSlot(Slot(ino, t)) && IsTable(t)
    ensures ok ==> Checked(vol.View(), cl', own', ino, Rank(t) + 1 + POINTERS_PER_BLOCK, first + POINTERS_PER_BLOCK, n')
    ensures ok ==> TableOk(vol.View(), Slot(ino, t))
    ensures !ok && !vol.faulty ==> !Acceptable(vol.View())
  {
    hide *;
    ghost var v := vol.View();
    TableSlot(ino, t);
    CheckedFacts(v, cl, own, ino, Rank(t), first, n);
    ok, cl', own' := ClaimBlock(vol, cl, table, own, ino, t);
    n' := n;
    if !ok {
      return;
    }
    var pointers;
    ok, pointers := ReadPointerTable(vol, table);
    if !ok {
      return;
    }
    TableStart(v, cl', own', ino, t, first, n, table);
    var entries;
    ok, cl', n', entries, own' := CheckEntries(vol, ino, pointers, first, fileBlocks, cl', n, own', t);
    if !ok {
      return;
    }
    EntriesEnd(v, ino, t, pointers, first, entries);
    if entries == 0 {
      ok := false;
    }
  }

  lemma TableSlot(ino: nat, t: Loc)
    requires ino < MAX_INODES && ValidLoc(t) && (t.Ind? || t.Child?)
    ensures ValidSlot(Slot(ino, t)) && IsTable(t)
  {
  }

  // ------------------------------------------------------------ double indirect

  ghost predicate RootsOf(v: Vol, ino: nat, roots: Pointers)
  {
    && |v.inodes| == MAX_INODES && ino < MAX_INODES
    && forall o :: 0 <= o < POINTERS_PER_BLOCK ==> Ref(v, Slot(ino, Child(o))) == roots[o]
  }

  ghost predicate ChildrenOk(v: Vol, ino: nat, n: nat)
    requires |v.inodes| == MAX_INODES && ino < MAX_INODES && n <= POINTERS_PER_BLOCK
  {
    forall o :: 0 <= o < n ==> TableOk(v, Slot(ino, Child(o)))
  }

  lemma ReadRoots(v: Vol, ino: nat)
    requires |v.inodes| == MAX_INODES && ino < MAX_INODES && Used(v, v.inodes[ino].double) && Shape(v)
    ensures RootsOf(v, ino, TableAt(v, v.inodes[ino].double))
  {
    hide Ptr, BitmapBlocks;
  }

  lemma ChildRank(v: Vol, ino: nat, roots: Pointers, o: nat)
    requires RootsOf(v, ino, roots) && o < POINTERS_PER_BLOCK
    ensures |v.inodes| == MAX_INODES && ino < MAX_INODES && ValidLoc(Child(o))
            && EntryLoc(Child(o), 0) == Data(DoubleBlock(o, 0))
    ensures Ref(v, Slot(ino, Child(o))) == roots[o] && ValidSlot(Slot(ino, Child(o)))
    ensures Rank(Child(o)) + 1 + POINTERS_PER_BLOCK == Rank(Child(o + 1))
    ensures DoubleBlock(o, 0) + POINTERS_PER_BLOCK == DoubleBlock(o + 1, 0)
  {
    hide Ref;
  }

  lemma ChildrenStep(v: Vol, ino: nat, o: nat)
    requires |v.inodes| == MAX_INODES && ino < MAX_INODES && o < POINTERS_PER_BLOCK && ChildrenOk(v, ino, o)
    requires TableOk(v, Slot(ino, Child(o)))
    ensures ChildrenOk(v, ino, o + 1)
  {
    hide TableOk;
  }

  lemma LastRanks()
    ensures Rank(Child(POINTERS_PER_BLOCK)) == END_RANK && DoubleBlock(POINTERS_PER_BLOCK, 0) == MAX_FILE_BLOCKS
    ensures POINTERS_PER_BLOCK > 0 && IsTable(Dbl) && ValidLoc(Dbl)
  {
  }

  /** No double-indirect root: the rest of the scan of the file finds nothing. */
  lemma AbsentRoot(v: Vol, cl: Claims, own: Owners, ino: nat, n: nat)
    requires |v.inodes| == MAX_INODES && ino < MAX_INODES && v.inodes[ino].double == INVALID
    requires Checked(v, cl, own, ino, Rank(Dbl), SINGLE_END, n)
    ensures Checked(v, cl, own, ino, END_RANK, MAX_FILE_BLOCKS, n)
    ensures TableOk(v, Slot(ino, Dbl)) && ChildrenOk(v, ino, POINTERS_PER_BLOCK)
  {
    hide ClaimState, FileState, Ptr;
    CheckedFacts(v, cl, own, ino, Rank(Dbl), SINGLE_END, n);
    RootlessSlots(v, ino);
    hide Ref, Rank;
    ClaimHoles(v, cl, own, ino, Rank(Dbl), END_RANK);
    FileHoles(v, ino, SINGLE_END, MAX_FILE_BLOCKS, n);
  }

  lemma RootlessSlots(v: Vol, ino: nat)
    requires Shape(v) && ino < MAX_INODES && v.inodes[ino].double == INVALID
    ensures Ref(v, Slot(ino, Dbl)) == INVALID && Rank(Dbl) <= END_RANK
    ensures forall o :: 0 <= o < POINTERS_PER_BLOCK ==> Ref(v, Slot(ino, Child(o))) == INVALID
    ensures forall l :: ValidLoc(l) && Rank(Dbl) <= Rank(l) ==> Ref(v, Slot(ino, l)) == INVALID
    ensures forall lb :: SINGLE_END <= lb < MAX_FILE_BLOCKS ==> Phys(v, ino, lb) == INVALID
  {
    hide Ptr, BitmapBlocks;
  }

  /** The double-indirect root of a file, its children and what they map. */
  method CheckDouble(vol: DenyVolume, ino: nat, fileBlocks: nat, cl: Claims, n: nat, ghost own: Owners)
    returns (ok: bool, cl': Claims, n': nat, ghost own': Owners)
    requires vol.Valid() && Checked(vol.View(), cl, own, ino, Rank(Dbl), SINGLE_END, n)
    requires |vol.View().inodes| == MAX_INODES && IsFile(vol.View(), ino)
             && fileBlocks == BlocksFor(vol.View().inodes[ino].size)
    ensures vol.Valid() && vol.View() == old(vol.View())
    ensures ok ==> Checked(vol.View(), cl', own', ino, END_RANK, MAX_FILE_BLOCKS, n') && ino < MAX_INODES
    ensures ok ==> DoubleOk(vol.View(), ino)
    ensures !ok && !vol.faulty ==> !Acceptable(vol.View())
  {
    hide *;
    ghost var v := vol.View();
    CheckedFacts(v, cl, own, ino, Rank(Dbl), SINGLE_END, n);
    SingleRanks();
    FieldRefs(v, ino);
    var root := vol.Node(ino).double;
    if root == INVALID {
      AbsentRoot(v, cl, own, ino, n);
      DoubleOkIntro(v, ino);
      return true, cl, n, own;
    }
    n' := n;
    ok, cl', own' := ClaimBlock(vol, cl, root, own, ino, Dbl);
    if !ok {
      return;
    }
    var roots;
    ok, roots := ReadPointerTable(vol, root);
    if !ok {
      return;
    }
    ReadRoots(v, ino);
    CheckedIntro(v, cl', own', ino, Rank(Child(0)), DoubleBlock(0, 0), n);
    ok, cl', n', own' := CheckChildren(vol, ino, roots, fileBlocks, cl', n, own');
  }

  /** The double-indirect root and all children are absent or have an entry. */
  ghost predicate DoubleOk(v: Vol, ino: nat)
  {
    |v.inodes| == MAX_INODES && ino < MAX_INODES && TableOk(v, Slot(ino, Dbl)) && ChildrenOk(v, ino, POINTERS_PER_BLOCK)
  }

  lemma DoubleOkIntro(v: Vol, ino: nat)
    requires |v.inodes| == MAX_INODES && ino < MAX_INODES && TableOk(v, Slot(ino, Dbl))
             && ChildrenOk(v, ino, POINTERS_PER_BLOCK)
    ensures DoubleOk(v, ino)
  {
  }

  lemma RootEnd(v: Vol, ino: nat, roots: Pointers, n: nat)
    requires RootsOf(v, ino, roots) && ChildrenOk(v, ino, POINTERS_PER_BLOCK)
    requires n == 0 <==> forall j :: 0 <= j < POINTERS_PER_BLOCK ==> roots[j] == INVALID
    requires Ref(v, Slot(ino, Dbl)) != INVALID
    ensures n != 0 ==> DoubleOk(v, ino)
    ensures n == 0 ==> !Acceptable(v)
  {
    hide Ref, Acceptable, ChildrenOk;
    var s := Slot(ino, Dbl);
    forall i: nat | i < POINTERS_PER_BLOCK
      ensures EntryUsed(v, s, i) <==> roots[i] != INVALID
    {
    }
    if n == 0 { HollowFails(v, s); }
  }

  method CheckChildren(vol: DenyVolume, ino: nat, roots: Pointers, fileBlocks: nat, cl: Claims, n: nat,
                       ghost own: Owners)
    returns (ok: bool, cl': Claims, n': nat, ghost own': Owners)
    requires vol.Valid() && RootsOf(vol.View(), ino, roots)
             && Checked(vol.View(), cl, own, ino, Rank(Child(0)), DoubleBlock(0, 0), n)
    requires |vol.View().inodes| == MAX_INODES && IsFile(vol.View(), ino)
             && fileBlocks == BlocksFor(vol.View().inodes[ino].size)
    requires ino < MAX_INODES && Ref(vol.View(), Slot(ino, Dbl)) != INVALID
    ensures vol.Valid() && vol.View() == old(vol.View())
    ensures ok ==> Checked(vol.View(), cl', own', ino, END_RANK, MAX_FILE_BLOCKS, n') && DoubleOk(vol.View(), ino)
    ensures !ok && !vol.faulty ==> !Acceptable(vol.View())
  {
    hide *;
    ok, cl', n', own' := true, cl, n, own;
    ghost var v := vol.View();
    TableSize(roots);
    LastRanks();
    NoChildren(v, ino);
    var entries := 0;
    var o := 0;
    while o < POINTERS_PER_BLOCK
      invariant o <= POINTERS_PER_BLOCK == |roots| && vol.Valid() && vol.View() == v && ok
      invariant Checked(v, cl', own', ino, Rank(Child(o)), DoubleBlock(o, 0), n') && ChildrenOk(v, ino, o)
      invariant entries == 0 <==> forall j :: 0 <= j < o ==> roots[j] == INVALID
    {
      ok, cl', n', own' := CheckChild(vol, ino, o, roots, fileBlocks, cl', n', own');
      if !ok {
        return;
      }
      ChildrenStep(v, ino, o);
      if roots[o] != INVALID {
        entries := entries + 1;
      }
      o := o + 1;
    }
    RootEnd(v, ino, roots, entries);
    if entries == 0 {
      ok := false;
    }
  }

  lemma NoChildren(v: Vol, ino: nat)
    requires |v.inodes| == MAX_INODES && ino < MAX_INODES
    ensures ChildrenOk(v, ino, 0)
  {
  }

  /** One child table and what it maps. */
  method CheckChild(vol: DenyVolume, ino: nat, o: nat, roots: Pointers, fileBlocks: nat, cl: Claims, n: nat,
                    ghost own: Owners)
    returns (ok: bool, cl': Claims, n': nat, ghost own': Owners)
    requires vol.Valid() && RootsOf(vol.View(), ino, roots) && o < POINTERS_PER_BLOCK
    requires Checked(vol.View(), cl, own, ino, Rank(Child(o)), DoubleBlock(o, 0), n)
    requires |vol.View().inodes| == MAX_INODES && IsFile(vol.View(), ino)
             && fileBlocks == BlocksFor(vol.View().inodes[ino].size)
    ensures vol.Valid() && vol.View() == old(vol.View()) && ino < MAX_INODES && ValidSlot(Slot(ino, Child(o)))
    ensures ok ==>
              Checked(vol.View(), cl', own', ino, Rank(Child(o + 1)), DoubleBlock(o + 1, 0), n')
                 && TableOk(vol.View(), Slot(ino, Child(o)))
    ensures !ok && !vol.faulty ==> !Acceptable(vol.View())
  {
    hide *;
    ghost var v := vol.View();
    ChildRank(v, ino, roots, o);
    TableSlot(ino, Child(o));
    var child := roots[o];
    if child == INVALID {
      AbsentTable(v, cl, own, ino, Child(o), DoubleBlock(o, 0), n);
      AbsentOk(v, Slot(ino, Child(o)));
      return true, cl, n, own;
    }
    if DoubleBlock(o, 0) >= fileBlocks {
      ChildPastFails(v, ino, o);
      return false, cl, n, own;
    }
    ok, cl', n', own' := CheckTable(vol, ino, DoubleBlock(o, 0), child, fileBlocks, cl, n, own, Child(o));
  }

  // ------------------------------------------------------------------ inodes

  lemma NextInode(v: Vol, cl: Claims, own: Owners, ino: nat)
    requires ClaimState(v, cl, own, ino, END_RANK)
    ensures ClaimState(v, cl, own, ino + 1, 0)
  {
    hide Ref, Rank, BitmapBlocks, Visited;
    VisitNext(v, own, ino);
  }

  lemma FileOk(v: Vol, cl: Claims, own: Owners, ino: nat, n: nat)
    requires Checked(v, cl, own, ino, END_RANK, MAX_FILE_BLOCKS, n) && DoubleOk(v, ino) && ino != 0
    requires |v.inodes| == MAX_INODES && ino < MAX_INODES && TableOk(v, Slot(ino, Ind)) && IsFile(v, ino)
             && v.inodes[ino].size <= MAX_FILE_SIZE
    ensures n == v.inodes[ino].blockCount ==> InodeOk(v, ino) && ClaimState(v, cl, own, ino + 1, 0)
    ensures n != v.inodes[ino].blockCount ==> !Acceptable(v)
  {
    hide Ref, ClaimState, Acceptable, TableOk, BlocksFor, Mapped;
    FileEnd(v, ino, n);
    FileShape(v.inodes[ino], ino);
    NextInode(v, cl, own, ino);
    if n != v.inodes[ino].blockCount { CountFails(v, ino); }
    hide InodeShape;
    forall l | ValidLoc(l) && IsTable(l)
      ensures TableOk(v, Slot(ino, l))
    {
      if l.Child? { assert ChildrenOk(v, ino, POINTERS_PER_BLOCK); }
    }
  }

  /** The block map of one file. */
  method CheckFile(vol: DenyVolume, ino: nat, cl: Claims, ghost own: Owners)
    returns (ok: bool, cl': Claims, ghost own': Owners)
    requires vol.Valid() && ino != 0 && ClaimState(vol.View(), cl, own, ino, 0)
    requires |vol.View().inodes| == MAX_INODES && IsFile(vol.View(), ino) && ino < MAX_INODES
             && vol.View().inodes[ino].size <= MAX_FILE_SIZE
    ensures vol.Valid() && vol.View() == old(vol.View())
    ensures ok ==> ClaimState(vol.View(), cl', own', ino + 1, 0) && InodeOk(vol.View(), ino)
    ensures !ok && !vol.faulty ==> !Acceptable(vol.View())
  {
    hide *;
    ghost var v := vol.View();
    FileStart(v, ino);
    CheckedIntro(v, cl, own, ino, 0, 0, 0);
    var inode := vol.Node(ino);
    var fileBlocks := BlocksFor(inode.size);
    var n;
    ok, cl', n, own' := CheckDirects(vol, ino, fileBlocks, cl, own);
    if !ok {
      return;
    }
    ok, cl', n, own' := CheckSingle(vol, ino, fileBlocks, cl', n, own');
    if !ok {
      return;
    }
    ok, cl', n, own' := CheckDouble(vol, ino, fileBlocks, cl', n, own');
    if !ok {
      return;
    }
    FileOk(v, cl', own', ino, n);
    if n != inode.blockCount {
      ok := false;
    }
  }

  lemma DirectClaimed(v: Vol, cl: Claims, own: Owners, ino: nat)
    requires ClaimState(v, cl, own, ino, DIRECT_BLOCKS) && |v.inodes| == MAX_INODES && ino < MAX_INODES
    requires InodeShape(v.inodes[ino], ino) && (ino == 0 || v.inodes[ino].kind == FREE)
    ensures InodeOk(v, ino) && ClaimState(v, cl, own, ino + 1, 0)
  {
    hide Ref, InodeOk, InodeShape, ClaimState;
    ClaimShape(v, cl, own, ino, DIRECT_BLOCKS);
    DirectsOnly(v, ino);
    forall l | ValidLoc(l) && DIRECT_BLOCKS <= Rank(l) < END_RANK
      ensures Ref(v, Slot(ino, l)) == INVALID
    {
    }
    hide Rank;
    ClaimHoles(v, cl, own, ino, DIRECT_BLOCKS, END_RANK);
    NextInode(v, cl, own, ino);
  }

  lemma FreeClaimed(v: Vol, cl: Claims, own: Owners, ino: nat)
    requires ClaimState(v, cl, own, ino, 0) && |v.inodes| == MAX_INODES && ino < MAX_INODES
    requires InodeShape(v.inodes[ino], ino) && ino != 0 && v.inodes[ino].kind == FREE
    ensures InodeOk(v, ino) && ClaimState(v, cl, own, ino + 1, 0)
  {
    hide ClaimState, InodeOk, Get;
    ClaimShape(v, cl, own, ino, 0);
    EmptyRefs(v, ino);
    hide Ref, Rank;
    ClaimHoles(v, cl, own, ino, 0, DIRECT_BLOCKS);
    DirectClaimed(v, cl, own, ino);
  }

  /** A free inode maps nothing. */
  method CheckFree(vol: DenyVolume, ino: nat, cl: Claims, ghost own: Owners) returns (ok: bool)
    requires vol.Valid() && ino < MAX_INODES && ClaimState(vol.View(), cl, own, ino, 0)
    requires |vol.View().inodes| == MAX_INODES && vol.View().inodes[ino].kind == FREE
    ensures vol.Valid() && vol.View() == old(vol.View())
    ensures ok ==> ClaimState(vol.View(), cl, own, ino + 1, 0) && InodeOk(vol.View(), ino)
    ensures !ok ==> !Acceptable(vol.View())
  {
    hide *;
    ghost var v := vol.View();
    var n := vol.Node(ino);
    FreeShapeTest(n, ino);
    if !InodeShape(n, ino) {
      ShapeFails(v, ino);
    }
    if ino == 0 || n.size != 0 || n.blockCount != 0 {
      return false;
    }
    var i := 0;
    while i < DIRECT_BLOCKS
      invariant i <= DIRECT_BLOCKS == |n.direct| && vol.Valid() && vol.View() == v
      invariant forall j :: 0 <= j < i ==> n.direct[j] == INVALID
    {
      if n.direct[i] != INVALID {
        return false;
      }
      i := i + 1;
    }
    if n.indirect != INVALID || n.double != INVALID {
      return false;
    }
    FreeClaimed(v, cl, own, ino);
    ok := true;
  }

  lemma FreeShapeTest(n: Inode, ino: nat)
    requires n.kind == FREE
    ensures |n.direct| == DIRECT_BLOCKS
    ensures InodeShape(n, ino) <==>
              ino != 0 && n.size == 0 && n.blockCount == 0 && n.indirect == INVALID && n.double == INVALID
                                    && forall j :: 0 <= j < DIRECT_BLOCKS ==> n.direct[j] == INVALID
  {
    if forall j :: 0 <= j < DIRECT_BLOCKS ==> n.direct[j] == INVALID {
      assert n.direct == NoDirects();
    }
  }

  lemma RootTest(n: Inode)
    ensures |n.direct| == DIRECT_BLOCKS && DIR != FREE && DIR != FILE
    ensures InodeShape(n, 0) <==> RootHeader(n) && forall j :: 0 <= j < DIRECT_BLOCKS ==>
              (j < n.blockCount <==> n.direct[j] != INVALID)
  {
  }

  /** The checks on the root inode that come before the scan. */
  predicate RootHeader(n: Inode)
  {
    n.kind == DIR && n.size == 0 && 0 < n.blockCount <= DIRECT_BLOCKS && n.indirect == INVALID && n.double == INVALID
  }

  /** The direct pointers of the root directory: its blocks, all in front. */
  method CheckRoot(vol: DenyVolume, cl: Claims, ghost own: Owners) returns (ok: bool, cl': Claims, ghost own': Owners)
    requires vol.Valid() && ClaimState(vol.View(), cl, own, 0, 0) && |vol.View().inodes| == MAX_INODES > 0
             && RootHeader(vol.View().inodes[0])
    ensures vol.Valid() && vol.View() == old(vol.View())
    ensures ok ==> ClaimState(vol.View(), cl', own', 1, 0) && InodeOk(vol.View(), 0)
    ensures !ok ==> !Acceptable(vol.View())
  {
    hide *;
    ok, cl', own' := true, cl, own;
    ghost var v := vol.View();
    var root := vol.Node(0);
    RootTest(root);
    var i := 0;
    while i < DIRECT_BLOCKS
      invariant i <= DIRECT_BLOCKS == |root.direct| && vol.Valid() && vol.View() == v && ok
      invariant ClaimState(v, cl', own', 0, i)
      invariant forall j :: 0 <= j < i ==> (j < root.blockCount <==> root.direct[j] != INVALID)
    {
      var block := root.direct[i];
      DirectRank(v, 0, i);
      if (i < root.blockCount) != (block != INVALID) {
        ShapeFails(v, 0);
        ok := false;
        return;
      }
      if block != INVALID {
        ok, cl', own' := ClaimBlock(vol, cl', block, own', 0, Data(i));
        if !ok {
          return;
        }
      } else {
        ClaimHole(v, cl', own', 0, Data(i));
      }
      i := i + 1;
    }
    DirectClaimed(v, cl', own', 0);
  }

  /** The checks on one inode. */
  method CheckInode(vol: DenyVolume, ino: nat, cl: Claims, ghost own: Owners)
    returns (ok: bool, cl': Claims, ghost own': Owners)
    requires vol.Valid() && ino < MAX_INODES && ClaimState(vol.View(), cl, own, ino, 0)
    requires |vol.View().inodes| == MAX_INODES > 0 && RootHeader(vol.View().inodes[0])
    ensures vol.Valid() && vol.View() == old(vol.View())
    ensures ok ==> ClaimState(vol.View(), cl', own', ino + 1, 0) && InodeOk(vol.View(), ino)
    ensures !ok && !vol.faulty ==> !Acceptable(vol.View())
  {
    hide *;
    ok, cl', own' := false, cl, own;
    ghost var v := vol.View();
    var inode := vol.Node(ino);
    KindTest(v, ino);
    if inode.kind == FREE {
      ok := CheckFree(vol, ino, cl, own);
      return;
    }
    if inode.kind != (if ino == 0 then DIR else FILE) || inode.size > MAX_FILE_SIZE
        || inode.blockCount > MAX_FILE_BLOCKS {
      return;
    }
    if ino == 0 {
      ok, cl', own' := CheckRoot(vol, cl, own);
    } else {
      ok, cl', own' := CheckFile(vol, ino, cl, own);
    }
  }

  lemma KindTest(v: Vol, ino: nat)
    requires |v.inodes| == MAX_INODES && ino < MAX_INODES
    ensures var n := v.inodes[ino];
            n.kind != FREE && (n.kind != (if ino == 0 then DIR else FILE) || n.size > MAX_FILE_SIZE
                || n.blockCount > MAX_FILE_BLOCKS) ==>
            !Acceptable(v)
    ensures ino != 0 && v.inodes[ino].kind == FILE ==> IsFile(v, ino)
  {
    hide Acceptable, Mapped;
    var n := v.inodes[ino];
    if n.kind != FREE && (n.kind != (if ino == 0 then DIR else FILE) || n.size > MAX_FILE_SIZE) {
      ShapeFails(v, ino);
    }
    MappedBound(v, ino);
    if n.blockCount > MAX_FILE_BLOCKS { CountFails(v, ino); }
  }

  /** a inodes below n are allocated, and all of them are well formed. */
  ghost predicate InodesOk(v: Vol, n: nat, a: nat)
  {
    && |v.inodes| == MAX_INODES && n <= MAX_INODES
    && (forall i :: 0 <= i < n ==> InodeOk(v, i))
    && a + |FreeBelow(v, n)| == n
  }

  ghost function FreeBelow(v: Vol, n: nat): (s: set<nat>)
    requires |v.inodes| == MAX_INODES
  {
    set i | i in Interval(0, n) && i < MAX_INODES && v.inodes[i].kind == FREE
  }

  lemma NoInodes(v: Vol)
    requires |v.inodes| == MAX_INODES
    ensures InodesOk(v, 0, 0)
  {
    assert FreeBelow(v, 0) == {};
  }

  lemma NextInodeOk(v: Vol, n: nat, a: nat)
    requires InodesOk(v, n, a) && n < MAX_INODES && InodeOk(v, n)
    ensures InodesOk(v, n + 1, if v.inodes[n].kind == FREE then a else a + 1)
  {
    hide InodeOk, Interval;
    if v.inodes[n].kind == FREE {
      assert FreeBelow(v, n + 1) == FreeBelow(v, n) + {n};
    } else {
      assert FreeBelow(v, n + 1) == FreeBelow(v, n);
    }
  }

  lemma AllInodes(v: Vol, a: nat)
    requires InodesOk(v, MAX_INODES, a)
    ensures a + |FreeInodeSet(v)| == MAX_INODES == |v.inodes| && a > 0
    ensures v.freeInodes != |FreeInodeSet(v)| ==> !Acceptable(v)
    ensures forall i :: 0 <= i < MAX_INODES ==> InodeOk(v, i)
  {
    hide InodeOk, Acceptable, FreeBelow, FreeInodeSet;
    RootAllocated(v);
    FreeBelowAll(v);
    if v.freeInodes != |FreeInodeSet(v)| { FreeInodesFail(v); }
  }

  lemma FreeBelowAll(v: Vol)
    requires |v.inodes| == MAX_INODES && v.inodes[0].kind != FREE
    ensures FreeBelow(v, MAX_INODES) == FreeInodeSet(v) && |FreeInodeSet(v)| <= MAX_INODES - 1
  {
    hide Interval;
    assert FreeBelow(v, MAX_INODES) == FreeInodeSet(v);
    SubsetSize(FreeInodeSet(v), Interval(1, MAX_INODES));
  }

  lemma RootAllocated(v: Vol)
    requires |v.inodes| == MAX_INODES && InodeOk(v, 0)
    ensures v.inodes[0].kind != FREE
  {
    hide CountedAt, TableOk;
  }

  lemma StartState(v: Vol)
    requires Shape(v)
    ensures ClaimState(v, Claims(seq(|v.bitmap|, _ => false), 0), map[], 0, 0)
  {
    hide BitmapBlocks, Visited;
    VisitNone(v);
  }

  lemma RootHeaderFails(v: Vol)
    requires |v.inodes| == MAX_INODES && !RootHeader(v.inodes[0])
    ensures !Acceptable(v)
  {
    RootTest(v.inodes[0]);
    ShapeFails(v, 0);
  }

  /** The scan of all inodes. */
  method CheckInodes(vol: DenyVolume) returns (ok: bool, cl: Claims, ghost own: Owners)
    requires vol.Valid() && |vol.View().inodes| == MAX_INODES > 0 && Shape(vol.View())
    ensures vol.Valid() && vol.View() == old(vol.View())
    ensures ok ==>
              ClaimState(vol.View(), cl, own, MAX_INODES, 0)
                && (forall i :: 0 <= i < MAX_INODES ==> InodeOk(vol.View(), i))
    ensures ok ==> vol.View().freeInodes == |FreeInodeSet(vol.View())|
    ensures !ok && !vol.faulty ==> !Acceptable(vol.View())
  {
    hide *;
    ghost var v := vol.View();
    ok, cl, own := false, Claims(seq(|vol.Bits()|, _ => false), 0), map[];
    var root := vol.Node(0);
    if !RootHeader(root) {
      RootHeaderFails(v);
      return;
    }
    StartState(v);
    NoInodes(v);
    var taken := 0;
    var ino := 0;
    while ino < MAX_INODES
      invariant ino <= MAX_INODES && vol.Valid() && vol.View() == v
      invariant ClaimState(v, cl, own, ino, 0) && InodesOk(v, ino, taken)
    {
      ok, cl, own := CheckInode(vol, ino, cl, own);
      if !ok {
        return;
      }
      NextInodeOk(v, ino, taken);
      if vol.Node(ino).kind != FREE {
        taken := taken + 1;
      }
      ino := ino + 1;
    }
    AllInodes(v, taken);
    FreeInodesOf(vol);
    ok := !(taken == 0 || vol.freeInodes != MAX_INODES - taken);
  }

  // ------------------------------------------------------------------- bitmap

  /** The data blocks below n that the bitmap marks as used. */
  ghost function UsedBelow(v: Vol, n: nat): (s: set<nat>)
  {
    set b | b in Interval(v.dataStart, n) && Used(v, b)
  }

  lemma UsedNone(v: Vol)
    ensures UsedBelow(v, v.dataStart) == {}
  {
  }

  lemma UsedStep(v: Vol, n: nat)
    requires Shape(v) && v.dataStart <= n < v.total
    ensures |UsedBelow(v, n + 1)| == |UsedBelow(v, n)| + (if v.bitmap[n] then 1 else 0)
  {
    hide Interval, BitmapBlocks;
    if v.bitmap[n] {
      assert UsedBelow(v, n + 1) == UsedBelow(v, n) + {n};
    } else {
      assert UsedBelow(v, n + 1) == UsedBelow(v, n);
    }
  }

  /** Used and free data blocks make up the data area. */
  lemma UsedAndFree(v: Vol)
    requires Shape(v)
    ensures |UsedBelow(v, v.total)| + |FreeSet(v)| == v.total - v.dataStart
  {
    hide Interval, BitmapBlocks;
    assert Interval(v.dataStart, v.total) == UsedBelow(v, v.total) + FreeSet(v);
    assert UsedBelow(v, v.total) !! FreeSet(v);
    assert |UsedBelow(v, v.total) + FreeSet(v)| == |UsedBelow(v, v.total)| + |FreeSet(v)|;
  }

  ghost predicate MetadataMarked(v: Vol)
  {
    Shape(v) && forall b :: 0 <= b < v.dataStart ==> v.bitmap[b]
  }

  lemma UnmarkedFails(v: Vol, b: nat)
    requires Shape(v) && b < v.dataStart && !v.bitmap[b]
    ensures !Acceptable(v)
  {
    hide Sound;
    forall own ensures !Sound(v, own) {
      if Sound(v, own) { SoundCore(v, own); }
    }
  }

  /** The pigeonhole step: as many claims as used blocks, all of them used, so exactly the used blocks. */
  lemma ClaimsExact(v: Vol, cl: Claims, own: Owners, a: nat)
    requires ClaimState(v, cl, own, MAX_INODES, 0) && MetadataMarked(v) && a == |UsedBelow(v, v.total)| == cl.count
    requires v.freeBlocks == v.total - v.dataStart - a
    ensures v.freeBlocks == |FreeSet(v)| && BitsExact(v, own, {})
  {
    hide Interval, BitmapBlocks, FreeSet, Ref, Rank;
    UsedAndFree(v);
    assert own.Keys <= UsedBelow(v, v.total);
    assert |own.Keys| == |own|;
    SubsetOfSameSize(own.Keys, UsedBelow(v, v.total));
    forall b | 0 <= b < v.total
      ensures v.bitmap[b] <==> b < v.dataStart || b in own
    {
      assert b in UsedBelow(v, v.total) <==> b in own.Keys;
    }
  }

  /** The owners of a sound volume are those that the scan finds. */
  lemma OwnersFound(v: Vol, own: Owners, own0: Owners)
    requires Shape(v) && Visited(v, own, MAX_INODES, 0) && Core(v, own0, {})
    ensures own.Keys == own0.Keys && |own| == |own0|
  {
    hide Ref, Rank, BitmapBlocks, FreeSet, BitsExact;
    forall b | b in own
      ensures b in own0
    {
      assert Ref(v, own[b]) == b;
    }
    forall b | b in own0
      ensures b in own
    {
      assert Ref(v, own0[b]) == b;
    }
    assert own.Keys == own0.Keys && |own| == |own.Keys| && |own0| == |own0.Keys|;
  }

  lemma CountsFail(v: Vol, cl: Claims, own: Owners, a: nat)
    requires ClaimState(v, cl, own, MAX_INODES, 0) && a == |UsedBelow(v, v.total)|
    requires a != cl.count || v.freeBlocks != v.total - v.dataStart - a
    ensures !Acceptable(v)
  {
    hide Sound, Visited, UsedBelow, BitmapBlocks, FreeSet, Core;
    forall own0 ensures !Sound(v, own0) {
      if Sound(v, own0) {
        SoundCore(v, own0);
        CoreCounts(v, own0);
        OwnersFound(v, own, own0);
      }
    }
  }

  lemma CoreCounts(v: Vol, own: Owners)
    requires Core(v, own, {}) && Shape(v)
    ensures |UsedBelow(v, v.total)| == |own| && v.freeBlocks == v.total - v.dataStart - |own|
  {
    hide Interval, BitmapBlocks, FreeSet, Ref, RefsOwned;
    UsedAndFree(v);
    forall b: nat
      ensures b in UsedBelow(v, v.total) <==> b in own.Keys
    {
    }
    assert UsedBelow(v, v.total) == own.Keys;
    assert |own.Keys| == |own|;
  }

  /** The bitmap against the claims. */
  method CheckBitmap(vol: DenyVolume, cl: Claims, ghost own: Owners) returns (ok: bool)
    requires vol.Valid() && ClaimState(vol.View(), cl, own, MAX_INODES, 0)
    ensures vol.Valid() && vol.View() == old(vol.View()) && Shape(vol.View())
    ensures ok ==> vol.View().freeBlocks == |FreeSet(vol.View())| && BitsExact(vol.View(), own, {})
    ensures !ok ==> !Acceptable(vol.View())
  {
    hide *;
    ghost var v := vol.View();
    ClaimShape(v, cl, own, MAX_INODES, 0);
    ViewGeometry(vol);
    BitmapSize(v);
    var bits := vol.Bits();
    var b := 0;
    while b < vol.dataStart
      invariant b <= vol.dataStart && vol.Valid() && vol.View() == v
      invariant forall j :: 0 <= j < b ==> v.bitmap[j]
    {
      if !bits[b] {
        UnmarkedFails(v, b);
        return false;
      }
      b := b + 1;
    }
    MarkedIntro(v);
    var used := 0;
    UsedNone(v);
    while b < vol.total
      invariant vol.dataStart <= b <= vol.total && vol.Valid() && vol.View() == v
      invariant used == |UsedBelow(v, b)|
    {
      UsedStep(v, b);
      if bits[b] {
        used := used + 1;
      }
      b := b + 1;
    }
    if used != cl.count || vol.freeBlocks != vol.total - vol.dataStart - used {
      CountsFail(v, cl, own, used);
      return false;
    }
    ClaimsExact(v, cl, own, used);
    ok := true;
  }

  lemma BitmapSize(v: Vol)
    requires Shape(v)
    ensures v.dataStart < v.total <= |v.bitmap|
  {
  }

  lemma MarkedIntro(v: Vol)
    requires Shape(v) && v.dataStart <= |v.bitmap| && forall b :: 0 <= b < v.dataStart ==> v.bitmap[b]
    ensures MetadataMarked(v)
  {
    hide BitmapBlocks;
  }

  // ----------------------------------------------------------------- directory

  /** What the loader remembers of the first n directory slots: the names and the inodes they refer to. */
  ghost predicate DirScan(v: Vol, n: nat, names: seq<Name>, refs: seq<bool>, inos: set<nat>)
  {
    && |v.inodes| == MAX_INODES && n <= DIRENTS_PER_BLOCK * DIRECT_BLOCKS && |refs| == MAX_INODES
    && (forall k :: 0 <= k < n && k < DirSlots(v) ==> ValidDirent(EntryAt(v, k)))
    && (forall k :: Live(v, k) && k < n ==> IsFile(v, InoAt(v, k)) && InoAt(v, k) in inos && NameAt(v, k) in names)
    && (forall j, k :: Live(v, j) && Live(v, k) && j < n && k < n && InoAt(v, j) == InoAt(v, k) ==> j == k)
    && (forall j, k :: Live(v, j) && Live(v, k) && j < n && k < n && NameAt(v, j) == NameAt(v, k) ==> j == k)
    && (forall i :: i in inos ==> IsFile(v, i) && ListedBefore(v, i, n))
    && (forall name :: name in names ==> NamedBefore(v, name, n))
    && (forall i :: 0 <= i < MAX_INODES ==> (refs[i] <==> i in inos)) && |names| == |inos|
  }

  ghost predicate ListedBefore(v: Vol, ino: nat, n: nat)
    requires |v.inodes| == MAX_INODES
  {
    exists k :: Live(v, k) && k < n && InoAt(v, k) == ino
  }

  ghost predicate NamedBefore(v: Vol, name: Name, n: nat)
    requires |v.inodes| == MAX_INODES
  {
    exists k :: Live(v, k) && k < n && NameAt(v, k) == name
  }

  lemma DirScanNone(v: Vol)
    requires |v.inodes| == MAX_INODES
    ensures DirScan(v, 0, [], seq(MAX_INODES, _ => false), {})
  {
    hide EntryAt;
  }

  lemma DirScanFacts(v: Vol, n: nat, names: seq<Name>, refs: seq<bool>, inos: set<nat>)
    requires DirScan(v, n, names, refs, inos)
    ensures |refs| == MAX_INODES == |v.inodes|
  {
    hide EntryAt, Live;
  }

  lemma BeforeLater(v: Vol, n: nat, ino: nat, name: Name)
    requires |v.inodes| == MAX_INODES
    ensures ListedBefore(v, ino, n) ==> ListedBefore(v, ino, n + 1)
    ensures NamedBefore(v, name, n) ==> NamedBefore(v, name, n + 1)
    ensures Live(v, n) && InoAt(v, n) == ino ==> ListedBefore(v, ino, n + 1)
    ensures Live(v, n) && NameAt(v, n) == name ==> NamedBefore(v, name, n + 1)
  {
    hide EntryAt;
  }

  /** A slot that is not in use, or past the end of the directory. */
  lemma DirScanSkip(v: Vol, n: nat, names: seq<Name>, refs: seq<bool>, inos: set<nat>)
    requires DirScan(v, n, names, refs, inos) && n < DIRENTS_PER_BLOCK * DIRECT_BLOCKS && !Live(v, n)
    requires n < DirSlots(v) ==> ValidDirent(EntryAt(v, n))
    ensures DirScan(v, n + 1, names, refs, inos)
  {
    hide EntryAt, ValidDirent, Live, ListedBefore, NamedBefore, InoAt, NameAt;
    forall i | i in inos
      ensures ListedBefore(v, i, n + 1)
    {
      BeforeLater(v, n, i, []);
    }
    forall name | name in names
      ensures NamedBefore(v, name, n + 1)
    {
      BeforeLater(v, n, 0, name);
    }
  }

  /** A slot in use whose inode is a file not seen before and whose name is new. */
  lemma DirScanEntry(v: Vol, n: nat, names: seq<Name>, refs: seq<bool>, inos: set<nat>, ino: nat, name: Name)
    requires DirScan(v, n, names, refs, inos) && Live(v, n) && ValidDirent(EntryAt(v, n)) && ino == InoAt(v, n)
             && name == NameAt(v, n)
    requires IsFile(v, ino) && ino !in inos && name !in names && n < DIRENTS_PER_BLOCK * DIRECT_BLOCKS
    ensures ino < |refs| && DirScan(v, n + 1, names + [name], refs[ino := true], inos + {ino})
  {
    hide EntryAt, ValidDirent, Live, ListedBefore, NamedBefore, InoAt, NameAt;
    var inos' := inos + {ino};
    forall i | i in inos'
      ensures ListedBefore(v, i, n + 1)
    {
      BeforeLater(v, n, i, []);
    }
    forall m | m in names + [name]
      ensures NamedBefore(v, m, n + 1)
    {
      BeforeLater(v, n, 0, m);
    }
  }

  /** Why an entry is refused. */
  lemma DirScanFails(v: Vol, n: nat, names: seq<Name>, refs: seq<bool>, inos: set<nat>)
    requires DirScan(v, n, names, refs, inos) && Live(v, n)
    ensures !IsFile(v, InoAt(v, n)) || InoAt(v, n) in inos || NameAt(v, n) in names ==> !DirOk(v)
  {
    hide EntryAt, ValidDirent;
    if InoAt(v, n) in inos {
      var k :| Live(v, k) && k < n && InoAt(v, k) == InoAt(v, n);
    } else if NameAt(v, n) in names {
      var k :| Live(v, k) && k < n && NameAt(v, k) == NameAt(v, n);
    }
  }

  /** The name table never overflows: 63 names take all 63 file inodes. */
  lemma NameCount(v: Vol, n: nat, names: seq<Name>, refs: seq<bool>, inos: set<nat>, ino: nat)
    requires DirScan(v, n, names, refs, inos) && IsFile(v, ino) && v.inodes[0].kind != FILE
    ensures |names| >= MAX_INODES - 1 ==> ino in inos
  {
    hide EntryAt, Live, Interval, ListedBefore, NamedBefore;
    assert inos <= Interval(1, MAX_INODES);
    if ino !in inos {
      SubsetSize(inos + {ino}, Interval(1, MAX_INODES));
    }
  }

  /** The end of the directory: it is well formed exactly if every file was listed. */
  lemma DirScanEnd(v: Vol, names: seq<Name>, refs: seq<bool>, inos: set<nat>)
    requires DirScan(v, DIRENTS_PER_BLOCK * DIRECT_BLOCKS, names, refs, inos)
    ensures (forall i :: 0 <= i < MAX_INODES && IsFile(v, i) ==> refs[i]) <==> DirOk(v)
    ensures forall i :: 0 <= i < MAX_INODES && refs[i] ==> IsFile(v, i)
  {
    hide EntryAt, ValidDirent;
    if forall i :: 0 <= i < MAX_INODES && IsFile(v, i) ==> refs[i] {
      forall i | IsFile(v, i)
        ensures Listed(v, i)
      {
        assert refs[i];
        assert ListedBefore(v, i, DIRENTS_PER_BLOCK * DIRECT_BLOCKS);
      }
    } else {
      var i :| 0 <= i < MAX_INODES && IsFile(v, i) && !refs[i];
      assert !Listed(v, i);
    }
  }

  lemma EntryFails(v: Vol, k: nat)
    requires |v.inodes| == MAX_INODES && k < DirSlots(v) && k < DIRENTS_PER_BLOCK * DIRECT_BLOCKS
             && !ValidDirent(EntryAt(v, k))
    ensures !DirOk(v)
  {
    hide EntryAt, ValidDirent, Listed;
  }

  lemma ValidBounds(e: Dirent)
    requires ValidDirent(e) && e.inode != INVALID
    ensures e.inode < MAX_INODES
  {
    hide ValidName;
  }

  /** One directory entry. */
  method CheckEntry(vol: DenyVolume, e: Dirent, names: seq<Name>, refs: seq<bool>, ghost k: nat, ghost inos: set<nat>)
    returns (ok: bool, names': seq<Name>, refs': seq<bool>, ghost inos': set<nat>)
    requires vol.Valid() && DirScan(vol.View(), k, names, refs, inos)
    requires |vol.View().inodes| == MAX_INODES && vol.View().inodes[0].kind != FILE
    requires k < DirSlots(vol.View()) && k < DIRENTS_PER_BLOCK * DIRECT_BLOCKS && EntryAt(vol.View(), k) == e
    requires Live(vol.View(), k) <==> e.inode != INVALID
    ensures vol.Valid() && vol.View() == old(vol.View())
    ensures ok ==> DirScan(vol.View(), k + 1, names', refs', inos')
    ensures !ok ==> !DirOk(vol.View())
  {
    hide *;
    ok, names', refs', inos' := false, names, refs, inos;
    ghost var v := vol.View();
    DirScanFacts(v, k, names, refs, inos);
    if !ValidDirent(e) { EntryFails(v, k); }
    if e.inode == INVALID {
      ok := ValidDirent(e);
      if ok { DirScanSkip(v, k, names, refs, inos); }
      return;
    }
    EntryKind(v, k, e);
    DirScanFails(v, k, names, refs, inos);
    if !ValidDirent(e) {
      return;
    }
    ValidBounds(e);
    RefsAre(v, k, names, refs, inos, e.inode);
    if vol.Node(e.inode).kind != FILE {
      return;
    }
    NameCount(v, k, names, refs, inos, e.inode);
    if refs[e.inode] || |names| >= MAX_INODES - 1 {
      return;
    }
    var previous := 0;
    while previous < |names|
      invariant previous <= |names| && vol.Valid() && vol.View() == v
      invariant forall j :: 0 <= j < previous ==> names[j] != NameOf(e)
    {
      if names[previous] == NameOf(e) {
        return;
      }
      previous := previous + 1;
    }
    DirScanEntry(v, k, names, refs, inos, e.inode, NameOf(e));
    ok, names', refs', inos' := true, names + [NameOf(e)], refs[e.inode := true], inos + {e.inode};
  }

  lemma EntryKind(v: Vol, k: nat, e: Dirent)
    requires |v.inodes| == MAX_INODES && Live(v, k) && EntryAt(v, k) == e
    ensures InoAt(v, k) == e.inode && NameAt(v, k) == NameOf(e)
    ensures IsFile(v, e.inode) <==> e.inode < MAX_INODES && v.inodes[e.inode].kind == FILE
  {
    hide EntryAt;
  }

  lemma RefsAre(v: Vol, n: nat, names: seq<Name>, refs: seq<bool>, inos: set<nat>, i: nat)
    requires DirScan(v, n, names, refs, inos) && i < MAX_INODES
    ensures |refs| == MAX_INODES && (refs[i] <==> i in inos)
  {
    hide EntryAt, Live;
  }

  /** The entries of one directory block. */
  method CheckDirBlock(vol: DenyVolume, bi: nat, data: Sector, names: seq<Name>, refs: seq<bool>, ghost inos: set<nat>)
    returns (ok: bool, names': seq<Name>, refs': seq<bool>, ghost inos': set<nat>)
    requires vol.Valid() && DirScan(vol.View(), DIRENTS_PER_BLOCK * bi, names, refs, inos)
    requires |vol.View().inodes| == MAX_INODES && vol.View().inodes[0].kind != FILE
    requires bi < DIRECT_BLOCKS && bi < vol.View().inodes[0].blockCount && bi < MAX_FILE_BLOCKS
             && data == Block(vol.View(), 0, bi)
    ensures vol.Valid() && vol.View() == old(vol.View())
    ensures ok ==> DirScan(vol.View(), DIRENTS_PER_BLOCK * (bi + 1), names', refs', inos')
    ensures !ok ==> !DirOk(vol.View())
  {
    hide *;
    ok, names', refs', inos' := true, names, refs, inos;
    ghost var v := vol.View();
    NextBlock(bi, DIRENTS_PER_BLOCK);
    var i := 0;
    while i < DIRENTS_PER_BLOCK
      invariant i <= DIRENTS_PER_BLOCK && vol.Valid() && vol.View() == v && ok
      invariant DirScan(v, DIRENTS_PER_BLOCK * bi + i, names', refs', inos')
    {
      SlotOfBlock(v, bi, i);
      ok, names', refs', inos' := CheckEntry(vol, DecodeDirent(data, i), names', refs', DIRENTS_PER_BLOCK * bi + i,
          inos');
      if !ok {
        return;
      }
      i := i + 1;
    }
  }

  lemma DirScanPast(v: Vol, n: nat, m: nat, names: seq<Name>, refs: seq<bool>, inos: set<nat>)
    requires DirScan(v, n, names, refs, inos) && DirSlots(v) <= n <= m <= DIRENTS_PER_BLOCK * DIRECT_BLOCKS
    ensures DirScan(v, m, names, refs, inos)
  {
    hide EntryAt, ValidDirent;
    assert forall k :: Live(v, k) ==> k < n;
    forall i | i in inos
      ensures ListedBefore(v, i, m)
    {
    }
    forall name | name in names
      ensures NamedBefore(v, name, m)
    {
    }
  }

  /** The directory against the inodes. */
  method CheckDirectory(vol: DenyVolume, ghost own: Owners) returns (ok: bool)
    requires vol.Valid() && Mapping(vol.View(), own) && InodeShape(vol.View().inodes[0], 0)
    ensures vol.Valid() && vol.View() == old(vol.View()) && |vol.View().inodes| == MAX_INODES
    ensures ok ==> DirOk(vol.View())
    ensures !ok && !vol.faulty ==> !DirOk(vol.View())
  {
    hide *;
    ghost var v := vol.View();
    FewBlocks();
    RootIndex(0);
    MappedRootBlock(v, own, 0);
    RootKind(v.inodes[0]);
    DirScanNone(v);
    var root := vol.Node(0);
    var names: seq<Name>, refs: seq<bool> := [], seq(MAX_INODES, _ => false);
    ghost var inos: set<nat> := {};
    var bi := 0;
    while bi < root.blockCount
      invariant bi <= root.blockCount <= DIRECT_BLOCKS && vol.Valid() && vol.View() == v
      invariant DirScan(v, DIRENTS_PER_BLOCK * bi, names, refs, inos)
    {
      MappedRootBlock(v, own, bi);
      RootIndex(bi);
      var data;
      ok, data := vol.ReadBlock(root.direct[bi]);
      if !ok {
        return;
      }
      ok, names, refs, inos := CheckDirBlock(vol, bi, data, names, refs, inos);
      if !ok {
        return;
      }
      bi := bi + 1;
    }
    SlotsEnd(v, bi);
    DirScanPast(v, DIRENTS_PER_BLOCK * bi, DIRENTS_PER_BLOCK * DIRECT_BLOCKS, names, refs, inos);
    ok := CheckReferenced(vol, names, refs, inos);
  }

  lemma RootKind(n: Inode)
    requires InodeShape(n, 0)
    ensures n.kind != FILE
  {
  }

  lemma SlotsEnd(v: Vol, bi: nat)
    requires |v.inodes| == MAX_INODES && bi == v.inodes[0].blockCount <= DIRECT_BLOCKS
    ensures DirSlots(v) <= DIRENTS_PER_BLOCK * bi <= DIRENTS_PER_BLOCK * DIRECT_BLOCKS
  {
  }

  /** Every file inode is named by an entry, and only those. */
  method CheckReferenced(vol: DenyVolume, names: seq<Name>, refs: seq<bool>, ghost inos: set<nat>) returns (ok: bool)
    requires vol.Valid() && DirScan(vol.View(), DIRENTS_PER_BLOCK * DIRECT_BLOCKS, names, refs, inos)
    requires |vol.View().inodes| == MAX_INODES && vol.View().inodes[0].kind != FILE
    ensures vol.Valid() && vol.View() == old(vol.View())
    ensures ok <==> DirOk(vol.View())
  {
    hide *;
    ghost var v := vol.View();
    DirScanFacts(v, DIRENTS_PER_BLOCK * DIRECT_BLOCKS, names, refs, inos);
    DirScanEnd(v, names, refs, inos);
    KindOfFile(v);
    var ino := 1;
    while ino < MAX_INODES
      invariant 1 <= ino <= MAX_INODES && vol.Valid() && vol.View() == v
      invariant forall i :: 0 <= i < ino && IsFile(v, i) ==> refs[i]
    {
      if (vol.Node(ino).kind == FILE) != refs[ino] {
        return false;
      }
      ino := ino + 1;
    }
    ok := true;
  }

  lemma KindOfFile(v: Vol)
    requires |v.inodes| == MAX_INODES
    ensures forall i :: 0 <= i < MAX_INODES ==> (IsFile(v, i) <==> v.inodes[i].kind == FILE)
    ensures 1 <= MAX_INODES
  {
  }

  // -------------------------------------------------------------- the whole check

  /** validate_loaded_metadata: accepts exactly the sound volumes, and finds the owner of every block in use. */
  method ValidateLoadedMetadata(vol: DenyVolume) returns (ok: bool, ghost own: Owners)
    requires vol.Valid()
    ensures vol.Valid() && vol.View() == old(vol.View())
    ensures ok ==> Sound(vol.View(), own)
    ensures !ok && !vol.faulty ==> !Acceptable(vol.View())
  {
    hide *;
    ghost var v := vol.View();
    GeometryBounds(v);
    FewBlocks();
    RootIndex(0);
    var cl;
    ok, cl, own := CheckInodes(vol);
    if !ok {
      return;
    }
    ok := CheckBitmap(vol, cl, own);
    if !ok {
      return;
    }
    ClaimVisited(v, cl, own);
    ScanMapping(v, own);
    RootShaped(v);
    ok := CheckDirectory(vol, own);
    if ok {
      SoundIntro(v, own);
    } else if !vol.faulty {
      DirectoryFails(v);
    }
  }

  lemma ClaimVisited(v: Vol, cl: Claims, own: Owners)
    requires ClaimState(v, cl, own, MAX_INODES, 0)
    ensures Shape(v) && Visited(v, own, MAX_INODES, 0)
  {
    hide Visited, BitmapBlocks;
  }

  lemma RootShaped(v: Vol)
    requires |v.inodes| == MAX_INODES && Shaped(v)
    ensures InodeShape(v.inodes[0], 0)
  {
    hide InodeShape;
  }

  lemma SoundIntro(v: Vol, own: Owners)
    requires |v.inodes| == MAX_INODES && Mapping(v, own) && Shaped(v) && NothingPast(v)
             && v.freeInodes == |FreeInodeSet(v)| && DirOk(v)
    ensures Sound(v, own)
  {
    hide Mapping, Shaped, NothingPast, FreeInodeSet, DirOk;
  }
}
