/** Creating a file, working on it and unlinking it again gives every block back. */
module Reclaim {
  import opened Base
  import opened Codec
  import opened FileMap
  import opened Ownership
  import opened Growth
  import opened Bytes
  import opened FileSystem
  import opened FileOps
  import opened Persist
  import opened Volume
  import opened BlockMap
  import opened Access
  import opened Resizing
  import opened Directory
  import opened Dirents
  import opened Create
  import opened Unlink
  import opened Runs

  /** Between two states only the block map of one file changed, root directory and geometry included. */
  ghost predicate OnlyFile(v: Vol, v': Vol, ino: nat)
  {
    && |v.inodes| == MAX_INODES == |v'.inodes| && v'.total == v.total && v'.dataStart == v.dataStart
    && v'.inodes[0] == v.inodes[0] && OtherRefs(v, v', ino)
  }

  /** Every write and truncation, complete or not, is such a step. */
  lemma FileChangedOnly(v: Vol, v': Vol, own': Owners, ino: nat)
    requires |v.inodes| == MAX_INODES && FileChanged(v, v', own', ino) && v'.total == v.total
             && v'.dataStart == v.dataStart
    ensures OnlyFile(v, v', ino)
  {
    hide Mapping, OtherRefs;
  }

  /** Any number of steps on one file. */
  lemma {:induction false} OnlyFileRun(run: seq<Vol>, ino: nat)
    requires |run| > 0 && |run[0].inodes| == MAX_INODES
    requires forall i :: 0 < i < |run| ==> OnlyFile(run[i - 1], run[i], ino)
    ensures OnlyFile(run[0], run[|run| - 1], ino)
    decreases |run|
  {
    hide OtherRefs;
    if |run| == 1 {
      SameOtherRefs(run[0], ino);
    } else {
      var front := run[..|run| - 1];
      assert forall i :: 0 <= i < |front| ==> front[i] == run[i];
      OnlyFileRun(front, ino);
      assert OnlyFile(run[|run| - 1 - 1], run[|run| - 1], ino);
      OtherRefsTransitive(run[0], run[|run| - 2], run[|run| - 1], ino);
    }
  }

  lemma SameOtherRefs(v: Vol, ino: nat)
    requires |v.inodes| == MAX_INODES
    ensures OtherRefs(v, v, ino)
  {
    hide Ref;
  }

  lemma OtherRefsTransitive(u: Vol, v: Vol, w: Vol, ino: nat)
    requires |u.inodes| == MAX_INODES == |v.inodes| == |w.inodes| && OtherRefs(u, v, ino) && OtherRefs(v, w, ino)
    ensures OtherRefs(u, w, ino)
  {
    hide Ref;
  }

  /** The slots of a free inode refer to nothing. */
  lemma FreeHasNoRefs(v: Vol, own: Owners, ino: nat)
    requires Consistent(v, own) && |v.inodes| == MAX_INODES && 0 < ino < MAX_INODES && !IsFile(v, ino)
    ensures Bare(v, ino)
  {
    hide Core, Counted, NoHollow, Ref, DirOk, FreeInodeSet;
    MappingFacts(v, own);
    assert InodeShape(v.inodes[ino], ino);
    EmptyRefs(v, ino);
    forall s | ValidSlot(s) && s.ino == ino
      ensures Ref(v, s) == INVALID
    {
      assert s == Slot(ino, s.loc);
    }
  }

  ghost predicate Bare(v: Vol, ino: nat)
    requires |v.inodes| == MAX_INODES
  {
    forall s :: ValidSlot(s) && s.ino == ino ==> Ref(v, s) == INVALID
  }

  /** The root directory refers to blocks through its first direct pointers only. */
  lemma RootRefs(v: Vol, own: Owners, l: Loc)
    requires Consistent(v, own) && |v.inodes| == MAX_INODES && ValidLoc(l)
    ensures Ref(v, Slot(0, l)) != INVALID <==> l.Data? && l.lb < v.inodes[0].blockCount
    ensures v.inodes[0].blockCount <= DIRECT_BLOCKS
  {
    hide Core, Counted, NoHollow, DirOk, FreeInodeSet, Ptr;
    MappingFacts(v, own);
    assert InodeShape(v.inodes[0], 0);
  }

  lemma RootSmall(v: Vol, own: Owners)
    requires Consistent(v, own)
    ensures |v.inodes| == MAX_INODES && v.inodes[0].blockCount <= DIRECT_BLOCKS
  {
    hide Core, Counted, NoHollow, DirOk, FreeInodeSet;
    MappingFacts(v, own);
    assert InodeShape(v.inodes[0], 0);
  }

  /** Where a block in use after create, work and unlink comes from. */
  lemma OwnedBefore(v0: Vol, own0: Owners, v1: Vol, own1: Owners, vn: Vol, ownN: Owners, w: Vol, ownW: Owners,
                    name: Name, ino: nat, k: nat, k': nat, b: nat)
    requires |v0.inodes| == MAX_INODES && Consistent(v0, own0) && CreateEffect(v0, v1, own1, name, ino, k)
    requires OnlyFile(v1, vn, ino) && UnlinkEffect(vn, ownN, w, ownW, name, ino, k')
    ensures |w.inodes| == MAX_INODES && v0.inodes[0].blockCount <= MAX_FILE_BLOCKS
    ensures b in ownW ==>
              b in own0 || (DirFull(v0) && v0.inodes[0].blockCount < DIRECT_BLOCKS
                 && b == Phys(w, 0, v0.inodes[0].blockCount))
    ensures b in own0 ==> b in ownW && ownW[b] == own0[b]
  {
    hide *;
    CreateEffectFacts(v0, v1, own1, name, ino, k);
    UnlinkEffectFacts(vn, ownN, w, ownW, name, ino, k');
    CreateCounts(v0, v1, own1, name, ino, k);
    RootSmall(v0, own0);
    SmallRoot(v0);
    AddedFree(v0, v1, k, name, ino);
    FreeHasNoRefs(v0, own0, ino);
    RemovedFree(vn, w, k', name, ino);
    FreeHasNoRefs(w, ownW, ino);
    if b in own0 {
      OwnerRefers(v0, own0, b);
      SlotIs(own0[b]);
      RefForward(v0, v1, vn, w, ino, own0[b]);
      RefOwns(w, ownW, own0[b]);
    }
    if b in ownW {
      OwnerRefers(w, ownW, b);
      SlotIs(ownW[b]);
      RefBackward(v0, v1, vn, w, ino, ownW[b]);
      if Ref(v0, ownW[b]) != INVALID {
        RefOwns(v0, own0, ownW[b]);
      } else {
        NewRootBlock(v0, own0, v1, own1, vn, w, ino, ownW[b]);
      }
    }
  }

  lemma SmallRoot(v: Vol)
    requires |v.inodes| == MAX_INODES && v.inodes[0].blockCount <= DIRECT_BLOCKS
    ensures v.inodes[0].blockCount <= MAX_FILE_BLOCKS && DIRECT_BLOCKS < MAX_FILE_BLOCKS
  {
  }

  lemma CreateCounts(v0: Vol, v: Vol, own: Owners, name: Name, ino: nat, k: nat)
    requires CreateEffect(v0, v, own, name, ino, k)
    ensures |v0.inodes| == MAX_INODES == |v.inodes|
    ensures v.inodes[0].blockCount == v0.inodes[0].blockCount + (if DirFull(v0) then 1 else 0)
  {
    hide Consistent, OtherBlocks, RefsKept, BitmapBlocks, EntryChanged, Live, NothingPast, ZeroTail, DirFull;
  }

  lemma AddedFree(v: Vol, w: Vol, k: nat, name: Name, ino: nat)
    requires Added(v, w, k, name, ino)
    ensures 0 < ino < MAX_INODES && !IsFile(v, ino)
  {
    hide EntryChanged, Live, Named, ValidName;
  }

  lemma RemovedFree(v: Vol, w: Vol, k: nat, name: Name, ino: nat)
    requires Removed(v, w, k, name, ino)
    ensures |w.inodes| == MAX_INODES && !IsFile(w, ino)
  {
    hide EntryChanged, EntryFor;
  }

  lemma SlotIs(s: Slot)
    ensures s == Slot(s.ino, s.loc)
  {
  }

  lemma OwnerRefers(v: Vol, own: Owners, b: nat)
    requires Consistent(v, own) && b in own
    ensures |v.inodes| == MAX_INODES && ValidSlot(own[b]) && Ref(v, own[b]) == b && ValidLoc(own[b].loc)
            && own[b].ino < MAX_INODES
    ensures b != INVALID
  {
    hide Ref, Counted, NoHollow, DirOk, Shaped, FreeInodeSet, FreeSet, RefsOwned, BitsExact;
  }

  lemma RefOwns(v: Vol, own: Owners, s: Slot)
    requires Consistent(v, own) && |v.inodes| == MAX_INODES && ValidSlot(s) && Ref(v, s) != INVALID
    ensures Ref(v, s) in own && own[Ref(v, s)] == s
  {
    hide Ref, Counted, NoHollow, DirOk, Shaped, FreeInodeSet, FreeSet, OwnersRefer, BitsExact;
  }

  lemma RefForward(v0: Vol, v1: Vol, vn: Vol, w: Vol, ino: nat, s: Slot)
    requires |v0.inodes| == MAX_INODES == |v1.inodes| && RefsKept(v0, v1) && OnlyFile(v1, vn, ino)
             && |w.inodes| == MAX_INODES
    requires forall t :: ValidSlot(t) && t.ino != ino ==> Ref(w, t) == Ref(vn, t)
    requires ValidSlot(s) && Ref(v0, s) != INVALID && Bare(v0, ino)
    ensures Ref(w, s) == Ref(v0, s)
  {
    hide Ref;
  }

  lemma RefBackward(v0: Vol, v1: Vol, vn: Vol, w: Vol, ino: nat, s: Slot)
    requires |v0.inodes| == MAX_INODES == |v1.inodes| && RefsKept(v0, v1) && OtherBlocks(v0, v1, 0)
             && OnlyFile(v1, vn, ino) && |w.inodes| == MAX_INODES
    requires forall t :: ValidSlot(t) && t.ino != ino ==> Ref(w, t) == Ref(vn, t)
    requires ValidSlot(s) && Ref(w, s) != INVALID && Bare(w, ino)
    ensures s.ino != ino && Ref(v1, s) == Ref(w, s)
    ensures Ref(v0, s) != INVALID ==> Ref(v0, s) == Ref(w, s)
    ensures Ref(v0, s) == INVALID ==> s.ino == 0
  {
    hide Ref, Block;
  }

  lemma NewRootBlock(v0: Vol, own0: Owners, v1: Vol, own1: Owners, vn: Vol, w: Vol, ino: nat, s: Slot)
    requires |v0.inodes| == MAX_INODES == |v1.inodes| == |w.inodes| && Consistent(v0, own0) && Consistent(v1, own1)
    requires v1.inodes[0].blockCount == v0.inodes[0].blockCount + (if DirFull(v0) then 1 else 0)
    requires ValidSlot(s) && s.ino == 0 && Ref(v0, s) == INVALID && Ref(v1, s) == Ref(w, s) != INVALID
             && s == Slot(s.ino, s.loc)
    ensures DirFull(v0) && v0.inodes[0].blockCount < DIRECT_BLOCKS && Ref(w, s) == Phys(w, 0, v0.inodes[0].blockCount)
  {
    hide Ref, Consistent, DirFull;
    RootRefs(v0, own0, s.loc);
    RootRefs(v1, own1, s.loc);
  }

  /**
   * Unlink undoes create and everything done to the file in between: the free set is as before,
   * but for the one block that the root directory may have gained when it was full.
   */
  lemma UnlinkInverse(v0: Vol, own0: Owners, run: seq<Vol>, own1: Owners, ownN: Owners, w: Vol, ownW: Owners,
                      name: Name, ino: nat, k: nat, k': nat)
    requires |v0.inodes| == MAX_INODES && Consistent(v0, own0)
    requires |run| > 0 && CreateEffect(v0, run[0], own1, name, ino, k)
    requires forall i :: 0 < i < |run| ==> OnlyFile(run[i - 1], run[i], ino)
    requires UnlinkEffect(run[|run| - 1], ownN, w, ownW, name, ino, k')
    requires w.total == v0.total && w.dataStart == v0.dataStart
    ensures |w.inodes| == MAX_INODES && v0.inodes[0].blockCount <= DIRECT_BLOCKS < MAX_FILE_BLOCKS
    ensures !DirFull(v0) ==> FreeSet(w) == FreeSet(v0)
    ensures DirFull(v0) ==> FreeSet(w) == FreeSet(v0) - {Phys(w, 0, v0.inodes[0].blockCount)}
  {
    hide *;
    CreateEffectFacts(v0, run[0], own1, name, ino, k);
    OnlyFileRun(run, ino);
    UnlinkEffectFacts(run[|run| - 1], ownN, w, ownW, name, ino, k');
    RootSmall(v0, own0);
    SmallRoot(v0);
    forall b: nat
      ensures b in ownW ==> b in own0 || (DirFull(v0) && b == Phys(w, 0, v0.inodes[0].blockCount))
      ensures b in own0 ==> b in ownW
    {
      OwnedBefore(v0, own0, run[0], own1, run[|run| - 1], ownN, w, ownW, name, ino, k, k', b);
    }
    if DirFull(v0) {
      NewBlockOwned(v0, own0, run[0], own1, run[|run| - 1], ownN, w, ownW, name, ino, k, k');
    }
    FreeIsUnowned(v0, own0);
    FreeIsUnowned(w, ownW);
    FreeDifference(v0, own0, w, ownW);
  }

  /** The directory's new block is in use and was free before. */
  lemma NewBlockOwned(v0: Vol, own0: Owners, v1: Vol, own1: Owners, vn: Vol, ownN: Owners, w: Vol, ownW: Owners,
                      name: Name, ino: nat, k: nat, k': nat)
    requires |v0.inodes| == MAX_INODES && Consistent(v0, own0) && CreateEffect(v0, v1, own1, name, ino, k)
             && DirFull(v0)
    requires OnlyFile(v1, vn, ino) && UnlinkEffect(vn, ownN, w, ownW, name, ino, k')
    requires v0.inodes[0].blockCount < MAX_FILE_BLOCKS
    ensures |w.inodes| == MAX_INODES
    ensures Phys(w, 0, v0.inodes[0].blockCount) in ownW && Phys(w, 0, v0.inodes[0].blockCount) !in own0
  {
    hide *;
    CreateEffectFacts(v0, v1, own1, name, ino, k);
    UnlinkEffectFacts(vn, ownN, w, ownW, name, ino, k');
    CreateCounts(v0, v1, own1, name, ino, k);
    AddedFree(v0, v1, k, name, ino);
    NewSlot(v0, v1, vn, w, ino);
    var l := Data(v0.inodes[0].blockCount);
    NewSlotValid(v0.inodes[0].blockCount);
    RootRefs(v1, own1, l);
    RootRefs(v0, own0, l);
    LastBlock(v1, v0.inodes[0].blockCount);
    RefOwns(w, ownW, Slot(0, l));
    PhysIs(w, v0.inodes[0].blockCount);
    if Phys(w, 0, v0.inodes[0].blockCount) in own0 {
      OwnedBefore(v0, own0, v1, own1, vn, ownN, w, ownW, name, ino, k, k', Phys(w, 0, v0.inodes[0].blockCount));
      OwnerRefers(v0, own0, Phys(w, 0, v0.inodes[0].blockCount));
    }
  }

  lemma NewSlotValid(bc: nat)
    requires bc < MAX_FILE_BLOCKS
    ensures ValidLoc(Data(bc)) && ValidSlot(Slot(0, Data(bc))) && Data(bc).Data? && Data(bc).lb == bc
  {
  }

  lemma LastBlock(v: Vol, bc: nat)
    requires |v.inodes| == MAX_INODES && v.inodes[0].blockCount == bc + 1
    ensures bc < v.inodes[0].blockCount
  {
  }

  lemma PhysIs(v: Vol, lb: nat)
    requires |v.inodes| == MAX_INODES && lb < MAX_FILE_BLOCKS
    ensures Phys(v, 0, lb) == Ref(v, Slot(0, Data(lb)))
  {
  }

  lemma NewSlot(v0: Vol, v1: Vol, vn: Vol, w: Vol, ino: nat)
    requires |v0.inodes| == MAX_INODES == |v1.inodes| && v0.inodes[0].blockCount < MAX_FILE_BLOCKS && ino != 0
    requires OnlyFile(v1, vn, ino) && |w.inodes| == MAX_INODES
    requires forall t :: ValidSlot(t) && t.ino != ino ==> Ref(w, t) == Ref(vn, t)
    ensures Ref(w, Slot(0, Data(v0.inodes[0].blockCount))) == Ref(v1, Slot(0, Data(v0.inodes[0].blockCount)))
  {
    hide Ref;
  }

  /** The free blocks are the data blocks that nobody owns. */
  lemma FreeIsUnowned(v: Vol, own: Owners)
    requires Consistent(v, own)
    ensures forall b: nat :: b in FreeSet(v) <==> InData(v, b) && b !in own
  {
    hide Ref, Counted, NoHollow, DirOk, Shaped, FreeInodeSet, OwnersRefer, RefsOwned, Interval, BitmapBlocks;
  }

  lemma FreeDifference(v0: Vol, own0: Owners, w: Vol, ownW: Owners)
    requires w.total == v0.total && w.dataStart == v0.dataStart
    requires forall b: nat :: b in FreeSet(v0) <==> InData(v0, b) && b !in own0
    requires forall b: nat :: b in FreeSet(w) <==> InData(w, b) && b !in ownW
    requires forall b: nat :: b in own0 ==> b in ownW
    ensures (forall b: nat :: b in ownW ==> b in own0) ==> FreeSet(w) == FreeSet(v0)
    ensures forall n: nat :: n in ownW && n !in own0 && (forall b: nat :: b in ownW ==> b in own0 || b == n) ==>
              FreeSet(w) == FreeSet(v0) - {n}
  {
    hide FreeSet;
  }

  // ------------------------------------------------------------ the calls themselves

  /** A write or a truncation of the file. */
  datatype Change = Write(src: seq<byte>, offset: nat) | Resize(size: nat)

  /** The geometry of an open volume never changes. */
  lemma ViewGeometry(vol: DenyVolume)
    ensures vol.View().total == vol.total && vol.View().dataStart == vol.dataStart
  {
  }

  /** The steps so far, each a change of the one file. */
  ghost predicate Steps(run: seq<Vol>, v: Vol, ino: nat)
  {
    |run| > 0 && run[|run| - 1] == v && forall i :: 0 < i < |run| ==> OnlyFile(run[i - 1], run[i], ino)
  }

  lemma OneStep(run: seq<Vol>, v: Vol, v': Vol, own': Owners, ino: nat)
    requires Steps(run, v, ino) && |v.inodes| == MAX_INODES && FileChanged(v, v', own', ino)
    requires v'.total == v.total && v'.dataStart == v.dataStart
    ensures Steps(run + [v'], v', ino) && (run + [v'])[0] == run[0]
  {
    hide FileChanged, OnlyFile;
    FileChangedOnly(v, v', own', ino);
  }

  /** One write, complete or cut short, or one truncation. */
  method ChangeFile(vol: DenyVolume, ino: nat, c: Change, now: u64, ghost own: Owners, ghost run: seq<Vol>)
    returns (st: Status, ghost own': Owners, ghost run': seq<Vol>)
    requires vol.Valid() && vol.Reliable() && Consistent(vol.View(), own) && Clean(vol.View())
    requires |vol.View().inodes| == MAX_INODES && IsFile(vol.View(), ino) && Steps(run, vol.View(), ino)
    modifies vol.Footprint()
    ensures vol.Valid() && Consistent(vol.View(), own') && Clean(vol.View())
    ensures |vol.View().inodes| == MAX_INODES && IsFile(vol.View(), ino) && Steps(run', vol.View(), ino)
    ensures run'[0] == run[0]
    ensures forall k, name :: EntryFor(old(vol.View()), k, name, ino) ==> EntryFor(vol.View(), k, name, ino)
  {
    hide *;
    ghost var v := vol.View();
    own', run' := own, run;
    StepsFirst(run, v, ino);
    IsFileIndex(v, ino);
    ViewGeometry(vol);
    match c {
      case Write(src, offset) =>
        var n;
        ghost var done;
        st, n, own', done := VolWrite(vol, ino, src, offset, now, own);
        ViewGeometry(vol);
        if WriteRefused(v, ino, |src|, offset) == OK {
          TornFacts(v, vol.View(), own', ino, src, offset, done);
          run' := Stepped(run, v, own, vol.View(), own', ino);
        }
      case Resize(size) =>
        ghost var same := size == v.inodes[ino].size;
        st, own' := VolTruncate(vol, ino, size, now, own);
        ViewGeometry(vol);
        if st == OK && !same {
          TruncateFacts(v, own, vol.View(), own', ino, size);
          run' := Stepped(run, v, own, vol.View(), own', ino);
        }
    }
  }

  lemma StepsFirst(run: seq<Vol>, v: Vol, ino: nat)
    requires Steps(run, v, ino)
    ensures |run| > 0 && run[|run| - 1] == v
  {
    hide OnlyFile;
  }

  lemma IsFileIndex(v: Vol, ino: nat)
    requires |v.inodes| == MAX_INODES && IsFile(v, ino)
    ensures ino < MAX_INODES
  {
  }

  lemma Stepped(run: seq<Vol>, v: Vol, own: Owners, v': Vol, own': Owners, ino: nat) returns (run': seq<Vol>)
    requires Steps(run, v, ino) && Consistent(v, own) && |v.inodes| == MAX_INODES && FileChanged(v, v', own', ino)
    requires v'.total == v.total && v'.dataStart == v.dataStart
    ensures |run| > 0 && |run'| > 0 && Steps(run', v', ino) && run'[0] == run[0]
    ensures |v'.inodes| == MAX_INODES && IsFile(v', ino)
    ensures forall k, name :: EntryFor(v, k, name, ino) ==> EntryFor(v', k, name, ino)
  {
    hide *;
    run' := run + [v'];
    StepsFirst(run, v, ino);
    OneStep(run, v, v', own', ino);
    StillFile(v, v', own', ino);
    forall k, name | EntryFor(v, k, name, ino)
      ensures EntryFor(v', k, name, ino)
    {
      EntryRemains(v, own, v', own', k, name, ino, ino);
    }
  }

  lemma StillFile(v: Vol, v': Vol, own': Owners, ino: nat)
    requires |v.inodes| == MAX_INODES && FileChanged(v, v', own', ino)
    ensures |v'.inodes| == MAX_INODES && IsFile(v', ino)
  {
    hide Mapping, OtherBlocks;
  }

  /** The name's entry after a create. */
  lemma EntryMade(v0: Vol, v: Vol, own: Owners, name: Name, ino: nat, k: nat)
    requires CreateEffect(v0, v, own, name, ino, k)
    ensures |v.inodes| == MAX_INODES && Consistent(v, own) && EntryFor(v, k, name, ino) && IsFile(v, ino)
    ensures Named(v, name)
  {
    hide Consistent, OtherBlocks, RefsKept, Added, Live, NothingPast, ZeroTail, EntryAt, BitmapBlocks, DirFull;
    CreateEffectFacts(v0, v, own, name, ino, k);
    AddedLive(v0, v, k, name, ino);
    AddedIsFile(v0, v, k, name, ino);
  }

  lemma AddedIsFile(v: Vol, w: Vol, k: nat, name: Name, ino: nat)
    requires Added(v, w, k, name, ino)
    ensures |w.inodes| == MAX_INODES && IsFile(w, ino)
  {
    hide EntryChanged, Live, Named, ValidName;
  }

  lemma EntryIsNamed(v: Vol, k: nat, name: Name, ino: nat)
    requires EntryFor(v, k, name, ino)
    ensures |v.inodes| == MAX_INODES && Named(v, name)
  {
    hide EntryAt;
  }

  lemma RemovedWas(v: Vol, w: Vol, k: nat, name: Name, ino: nat)
    requires Removed(v, w, k, name, ino)
    ensures EntryFor(v, k, name, ino)
  {
    hide EntryChanged, Live;
  }

  /** The blocks that a file's life has cost: none, or the block that a full directory gained. */
  ghost predicate Restored(v0: Vol, w: Vol)
  {
    && |v0.inodes| == MAX_INODES == |w.inodes| && v0.inodes[0].blockCount < MAX_FILE_BLOCKS
    && (!DirFull(v0) ==> FreeSet(w) == FreeSet(v0))
    && (DirFull(v0) ==> FreeSet(w) == FreeSet(v0) - {Phys(w, 0, v0.inodes[0].blockCount)})
  }

  lemma LifeOver(v0: Vol, own0: Owners, run: seq<Vol>, v: Vol, own1: Owners, ownN: Owners, w: Vol, ownW: Owners,
                 name: Name, ino: nat, k: nat, j: nat, k': nat)
    requires |v0.inodes| == MAX_INODES && Consistent(v0, own0) && Steps(run, v, ino)
    requires CreateEffect(v0, run[0], own1, name, ino, k) && EntryFor(v, k, name, ino) && Consistent(v, ownN)
    requires UnlinkEffect(v, ownN, w, ownW, name, j, k')
    requires w.total == v0.total && w.dataStart == v0.dataStart
    ensures Restored(v0, w) && Consistent(w, ownW)
  {
    hide CreateEffect, UnlinkEffect, Consistent, OnlyFile, Phys, DirFull, FreeSet, EntryFor, DirOk, Removed;
    UnlinkEffectFacts(v, ownN, w, ownW, name, j, k');
    RemovedWas(v, w, k', name, j);
    DirectoryOf(v, ownN);
    EntryUnique(v, k, k', name, ino, j);
    UnlinkInverse(v0, own0, run, own1, ownN, w, ownW, name, ino, k, k');
  }

  lemma DirectoryOf(v: Vol, own: Owners)
    requires Consistent(v, own) && |v.inodes| == MAX_INODES
    ensures DirOk(v)
  {
    hide DirOk, Mapping, Shaped, FreeInodeSet;
  }

  /**
   * The life of a file on a host that does not fail: created, written and truncated any number of times,
   * whether or not the writes find their space, and unlinked. The free blocks are those from before,
   * but for the block that a full root directory gained.
   */
  method Lifetime(vol: DenyVolume, name: CString, changes: seq<Change>, now: u64, ghost own: Owners)
    returns (st: Status, ghost own': Owners)
    requires vol.Valid() && vol.Reliable() && Consistent(vol.View(), own) && Clean(vol.View())
    modifies vol.Footprint()
    ensures vol.Valid() && Consistent(vol.View(), own') && Clean(vol.View())
    ensures |old(vol.View()).inodes| == MAX_INODES && st == CreateRefused(old(vol.View()), name)
    ensures st == OK ==> Restored(old(vol.View()), vol.View())
    ensures st != OK ==> vol.View().bitmap == old(vol.View()).bitmap
  {
    hide *;
    ghost var v0 := vol.View();
    ghost var k, own1;
    var ino;
    ViewGeometry(vol);
    st, ino, own1, k := VolCreate(vol, name, now, own);
    if st != OK {
      UndoneMeaning(v0, own, vol.View(), now);
      return st, own;
    }
    ViewGeometry(vol);
    EntryMade(v0, vol.View(), own1, name, ino, k);
    ghost var run := [vol.View()];
    own' := own1;
    FirstStep(vol.View(), ino);
    var i := 0;
    while i < |changes|
      invariant i <= |changes| && vol.Valid() && Consistent(vol.View(), own') && Clean(vol.View())
      invariant |vol.View().inodes| == MAX_INODES && IsFile(vol.View(), ino) && Steps(run, vol.View(), ino)
      invariant |run| > 0 && CreateEffect(v0, run[0], own1, name, ino, k) && EntryFor(vol.View(), k, name, ino)
    {
      var changed;
      changed, own', run := ChangeFile(vol, ino, changes[i], now, own', run);
      StepsFirst(run, vol.View(), ino);
      i := i + 1;
    }
    ghost var v, ownN := vol.View(), own';
    EntryIsNamed(v, k, name, ino);
    ghost var j, k';
    st, own', j, k' := VolUnlink(vol, name, own');
    ViewGeometry(vol);
    LifeOver(v0, own, run, v, own1, ownN, vol.View(), own', name, ino, k, j, k');
  }

  lemma FirstStep(v: Vol, ino: nat)
    ensures Steps([v], v, ino)
  {
    hide OnlyFile;
  }
}
