/** What does not change: references and block contents under writes elsewhere. */
module Frames {
  import opened Base
  import opened Codec
  import opened FileMap
  import opened Ownership

  predicate SamePointers(n: Inode, n': Inode)
  {
    n'.direct == n.direct && n'.indirect == n.indirect && n'.double == n.double
  }

  ghost predicate SameMaps(v: Vol, v': Vol)
    requires |v.inodes| == |v'.inodes|
  {
    forall i :: 0 <= i < |v.inodes| ==> SamePointers(v.inodes[i], v'.inodes[i])
  }

  /** The pointer tables in use have the same contents. */
  ghost predicate TablesKept(v: Vol, v': Vol, own: Owners)
    requires |v.disk| == |v'.disk|
  {
    forall b :: b in own && b < |v.disk| && IsTable(own[b].loc) ==> v'.disk[b] == v.disk[b]
  }

  /** The file and directory data blocks in use have the same contents. */
  ghost predicate DataKept(v: Vol, v': Vol, own: Owners)
    requires |v.disk| == |v'.disk|
  {
    forall b :: b in own && b < |v.disk| && own[b].loc.Data? ==> v'.disk[b] == v.disk[b]
  }

  lemma OwnsItsTable(v: Vol, own: Owners, pend: set<nat>, s: Slot)
    requires Core(v, own, pend) && ValidSlot(s)
    ensures Ref(v, s) != INVALID ==> Ref(v, s) in own && own[Ref(v, s)] == s && InData(v, Ref(v, s))
  {
    hide BitsExact, BitmapBlocks, FreeSet;
  }

  lemma OneRefFrame(v: Vol, v': Vol, own: Owners, pend: set<nat>, s: Slot)
    requires Core(v, own, pend) && |v'.inodes| == MAX_INODES && |v'.disk| == v.total == |v.disk|
    requires |v.inodes| == MAX_INODES
    requires SameMaps(v, v') && TablesKept(v, v', own) && ValidSlot(s)
    ensures Ref(v', s) == Ref(v, s)
    decreases if s.loc.Data? then 2 else if s.loc.Child? then 1 else 0
  {
    hide Core;
    CoreShape(v, own, pend);
    if Home(s.loc).Some? {
      var h := Slot(s.ino, Home(s.loc).value);
      OneRefFrame(v, v', own, pend, h);
      OwnsItsTable(v, own, pend, h);
      RefViaHome(v, s);
      RefViaHome(v', s);
    }
  }

  /** Writing outside the pointer tables changes no reference. */
  lemma RefFrame(v: Vol, v': Vol, own: Owners, pend: set<nat>)
    requires Core(v, own, pend) && |v.disk| == v.total == |v'.disk|
    requires |v.inodes| == MAX_INODES == |v'.inodes|
    requires SameMaps(v, v') && TablesKept(v, v', own)
    ensures forall s :: ValidSlot(s) ==> Ref(v', s) == Ref(v, s)
  {
    hide *;
    forall s | ValidSlot(s)
      ensures Ref(v', s) == Ref(v, s)
    {
      OneRefFrame(v, v', own, pend, s);
    }
  }

  ghost predicate SameSpace(v: Vol, v': Vol)
  {
    && v'.total == v.total && v'.dataStart == v.dataStart && v'.bitmapBlocks == v.bitmapBlocks
    && v'.bitmap == v.bitmap && v'.freeBlocks == v.freeBlocks
  }

  lemma CoreFrame(v: Vol, v': Vol, own: Owners, pend: set<nat>)
    requires Core(v, own, pend) && Shape(v) && Shape(v') && SameSpace(v, v')
    requires SameMaps(v, v') && TablesKept(v, v', own)
    ensures forall s :: ValidSlot(s) ==> Ref(v', s) == Ref(v, s)
    ensures Core(v', own, pend)
  {
    RefFrame(v, v', own, pend);
    assert FreeSet(v') == FreeSet(v);
    assert OwnersRefer(v', own, pend) by { hide Ref, RefsOwned, BitsExact, FreeSet; }
    assert RefsOwned(v', own) by { hide Ref, OwnersRefer, BitsExact, FreeSet; }
    assert BitsExact(v', own, pend) && PendingData(v', pend) by { hide OwnersRefer, RefsOwned, FreeSet; }
  }

  /** Writing outside the data blocks in use changes no file contents. */
  lemma BlockFrame(v: Vol, v': Vol, own: Owners, pend: set<nat>)
    requires Core(v, own, pend) && |v.inodes| == MAX_INODES == |v'.inodes| && |v.disk| == v.total == |v'.disk|
    requires forall s :: ValidSlot(s) && s.loc.Data? ==> Ref(v', s) == Ref(v, s)
    requires DataKept(v, v', own)
    ensures forall ino, lb :: 0 <= ino < MAX_INODES && 0 <= lb < MAX_FILE_BLOCKS ==>
              Block(v', ino, lb) == Block(v, ino, lb)
  {
    hide Core;
    CoreShape(v, own, pend);
    forall ino, lb | 0 <= ino < MAX_INODES && 0 <= lb < MAX_FILE_BLOCKS
      ensures Block(v', ino, lb) == Block(v, ino, lb)
    {
      OwnsItsTable(v, own, pend, Slot(ino, Data(lb)));
    }
  }

  // -------------------------------------- contents under storing a block number

  lemma SetRefDisk(v: Vol, own: Owners, pend: set<nat>, s: Slot, x: u32, b: nat)
    requires Core(v, own, pend) && Settable(v, pend, s, x)
    requires b < |v.disk| && (b in own ==> own[b].loc.Data?)
    ensures |SetRef(v, s, x).disk| == |v.disk| && SetRef(v, s, x).disk[b] == v.disk[b]
  {
    hide Core;
    CoreShape(v, own, pend);
    if Home(s.loc).Some? {
      OwnsItsTable(v, own, pend, Slot(s.ino, Home(s.loc).value));
    }
  }

  /** Linking or clearing a slot affects the contents of its own logical block only. */
  lemma SetRefBlock(v: Vol, own: Owners, pend: set<nat>, s: Slot, x: u32, ino: nat, lb: nat)
    requires Core(v, own, pend) && Settable(v, pend, s, x)
    requires ino < MAX_INODES && lb < MAX_FILE_BLOCKS && |SetRef(v, s, x).inodes| == MAX_INODES
    ensures Block(SetRef(v, s, x), ino, lb) ==
            if s == Slot(ino, Data(lb)) then Load(v.disk, x) else Block(v, ino, lb)
  {
    hide Core, SetRef, Get;
    CoreShape(v, own, pend);
    SetRefGet(v, own, pend, s, x);
    var q := Slot(ino, Data(lb));
    if s == q {
      if x != INVALID {
        PendingIsData(v, own, pend, x);
        SetRefDisk(v, own, pend, s, x, x);
      }
    } else {
      OwnsItsTable(v, own, pend, q);
      if Ref(v, q) != INVALID { SetRefDisk(v, own, pend, s, x, Ref(v, q)); }
    }
  }

  lemma PendingIsData(v: Vol, own: Owners, pend: set<nat>, b: nat)
    requires Core(v, own, pend) && b in pend
    ensures InData(v, b) && b !in own
  {
  }
}
