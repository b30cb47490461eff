/** Changing one directory entry: add_dirent and remove_dirent. */
module Dirents {
  import opened Base
  import opened Codec
  import opened FileMap
  import opened Ownership
  import opened Growth
  import opened Files
  import opened FileSystem
  import opened Directory

  /** A directory block with all entries free. */
  function EmptyDirBlock(): (s: Sector)
  {
    seq(SECTOR_SIZE, k requires 0 <= k < SECTOR_SIZE => if k % DIRENT_SIZE < 4 then 255 else 0)
  }

  lemma EmptyDirEntry(i: nat)
    requires i < DIRENTS_PER_BLOCK
    ensures DecodeDirent(EmptyDirBlock(), i) == FreeDirent()
  {
    var s, base := EmptyDirBlock(), DIRENT_SIZE * i;
    forall k | base <= k < base + DIRENT_SIZE
      ensures s[k] == if k < base + 4 then 255 else 0
    {
      assert k % DIRENT_SIZE == k - base;
    }
    var e := DecodeDirent(s, i);
    assert e.inode == INVALID;
    assert e.name == FreeDirent().name;
  }

  /** What block bi of the root directory holds before an entry is put into it: a new block is empty. */
  ghost function DirBlock(v: Vol, bi: nat): (s: Sector)
    requires |v.inodes| == MAX_INODES && bi < MAX_FILE_BLOCKS
  {
    if bi < v.inodes[0].blockCount then Block(v, 0, bi) else EmptyDirBlock()
  }

  /** From v to v', entry i of root block bi became e; block bi may be new. */
  ghost predicate DirentStored(v: Vol, v': Vol, own': Owners, bi: nat, i: nat, e: Dirent)
  {
    && |v.inodes| == MAX_INODES && bi < DIRECT_BLOCKS && i < DIRENTS_PER_BLOCK && bi <= v.inodes[0].blockCount
    && bi < MAX_FILE_BLOCKS
    && Stored(v, v', own', 0, bi, PutDirent(DirBlock(v, bi), i, e))
  }

  /** From v to v', slot k of the directory became e; slots of a new block are free. */
  ghost predicate EntryChanged(v: Vol, v': Vol, k: nat, e: Dirent)
    requires |v.inodes| == MAX_INODES == |v'.inodes|
  {
    && k < DirSlots(v') <= DIRENTS_PER_BLOCK * DIRECT_BLOCKS && DirSlots(v) <= DirSlots(v')
    && EntryAt(v', k) == e
    && (forall j :: 0 <= j < DIRENTS_PER_BLOCK * DIRECT_BLOCKS && j != k ==>
          j < DirSlots(v') ==> EntryAt(v', j) == if j < DirSlots(v) then EntryAt(v, j) else FreeDirent())
  }

  lemma StoredEntries(v: Vol, v': Vol, own': Owners, bi: nat, i: nat, e: Dirent)
    requires DirentStored(v, v', own', bi, i, e) && |v'.inodes| == MAX_INODES
    requires v'.inodes[0].blockCount == Max(v.inodes[0].blockCount, bi + 1) <= DIRECT_BLOCKS
    ensures EntryChanged(v, v', DIRENTS_PER_BLOCK * bi + i, e)
  {
    hide Mapping, Tracked, Block, Filled, SameFiles, DecodeDirent, PutDirent, EmptyDirBlock, FreeDirent;
    var k := DIRENTS_PER_BLOCK * bi + i;
    SlotIndex(bi, i);
    DirentRoundTrip(DirBlock(v, bi), i, e);
    assert EntryAt(v', k) == e;
    forall j | 0 <= j < DIRENTS_PER_BLOCK * DIRECT_BLOCKS && j != k && j < DirSlots(v')
      ensures EntryAt(v', j) == if j < DirSlots(v) then EntryAt(v, j) else FreeDirent()
    {
      StoredEntry(v, v', own', bi, i, e, j);
    }
  }

  lemma StoredEntry(v: Vol, v': Vol, own': Owners, bi: nat, i: nat, e: Dirent, j: nat)
    requires DirentStored(v, v', own', bi, i, e) && |v'.inodes| == MAX_INODES
    requires v'.inodes[0].blockCount == Max(v.inodes[0].blockCount, bi + 1) <= DIRECT_BLOCKS
    requires j < DirSlots(v') && j < DIRENTS_PER_BLOCK * DIRECT_BLOCKS && j != DIRENTS_PER_BLOCK * bi + i
    ensures EntryAt(v', j) == if j < DirSlots(v) then EntryAt(v, j) else FreeDirent()
  {
    hide Mapping, Tracked, Block, Filled, SameFiles, DecodeDirent, PutDirent, EmptyDirBlock, FreeDirent;
    var b, n := j / DIRENTS_PER_BLOCK, j % DIRENTS_PER_BLOCK;
    if b == bi {
      DirentFrame(DirBlock(v, bi), i, e, n);
      EmptyDirEntry(n);
    }
  }

  /** The root directory has its direct blocks in front and no tables, before and after. */
  lemma StoredRoot(v: Vol, own: Owners, v': Vol, own': Owners, bi: nat, data: Sector)
    requires Mapping(v, own) && Shape(v) && InodeShape(v.inodes[0], 0) && bi < DIRECT_BLOCKS
             && bi <= v.inodes[0].blockCount
    requires Stored(v, v', own', 0, bi, data) && Shape(v')
    ensures InodeShape(v'.inodes[0], 0)
            && v'.inodes[0].blockCount == Max(v.inodes[0].blockCount, bi + 1) <= DIRECT_BLOCKS
  {
    hide Core, NoHollow, Tracked, Block, BitmapBlocks, Ref, Filled, CountedAt, Missing;
    MappedRoot(v, own, v', bi);
    RootDirects(v, v', bi);
  }

  lemma RootDirects(v: Vol, v': Vol, bi: nat)
    requires |v.inodes| == MAX_INODES == |v'.inodes| && InodeShape(v.inodes[0], 0) && bi < DIRECT_BLOCKS
             && bi <= v.inodes[0].blockCount
    requires Filled(v, v', 0, Missing(v, 0, bi))
    ensures v'.inodes[0].indirect == INVALID && v'.inodes[0].double == INVALID
    ensures forall j :: 0 <= j < DIRECT_BLOCKS ==>
              (v'.inodes[0].direct[j] != INVALID <==> j < Max(v.inodes[0].blockCount, bi + 1))
  {
    assert Ref(v', Slot(0, Ind)) == v'.inodes[0].indirect && Ref(v', Slot(0, Dbl)) == v'.inodes[0].double;
    forall j | 0 <= j < DIRECT_BLOCKS
      ensures v'.inodes[0].direct[j] != INVALID <==> j < Max(v.inodes[0].blockCount, bi + 1)
    {
      assert Ref(v', Slot(0, Data(j))) == v'.inodes[0].direct[j] && Ref(v, Slot(0, Data(j))) == v.inodes[0].direct[j];
    }
  }

  lemma MappedRoot(v: Vol, own: Owners, v': Vol, bi: nat)
    requires Shape(v) && Shape(v') && Counted(v) && Counted(v') && bi < DIRECT_BLOCKS
    requires InodeShape(v.inodes[0], 0) && bi <= v.inodes[0].blockCount && Filled(v, v', 0, Missing(v, 0, bi))
    ensures v'.inodes[0].blockCount == Max(v.inodes[0].blockCount, bi + 1)
    ensures v'.inodes[0].blockCount <= DIRECT_BLOCKS
  {
    hide BitmapBlocks, Get, InodeShape;
    assert CountedAt(v, 0) && CountedAt(v', 0);
    RootDirect(v, bi);
    forall lb: nat | lb < MAX_FILE_BLOCKS
      ensures Phys(v', 0, lb) != INVALID <==> Phys(v, 0, lb) != INVALID || lb == bi
    {
    }
    assert Mapped(v', 0) == Mapped(v, 0) + {bi};
    if bi < v.inodes[0].blockCount { assert Mapped(v', 0) == Mapped(v, 0); }
  }

  lemma RootDirect(v: Vol, bi: nat)
    requires |v.inodes| == MAX_INODES && InodeShape(v.inodes[0], 0) && bi < DIRECT_BLOCKS
    ensures bi in Mapped(v, 0) <==> bi < v.inodes[0].blockCount
    ensures v.inodes[0].blockCount <= DIRECT_BLOCKS && bi < MAX_FILE_BLOCKS
  {
    assert Phys(v, 0, bi) == v.inodes[0].direct[bi];
    hide Phys;
  }

  // ------------------------------------------------- adding a file by name

  /** From v to w, the directory gained slot k, naming the new file ino. */
  ghost predicate Added(v: Vol, w: Vol, k: nat, name: Name, ino: nat)
  {
    && |v.inodes| == MAX_INODES == |w.inodes| && 0 < ino < MAX_INODES && ValidName(name)
    && EntryChanged(v, w, k, MakeDirent(ino, name))
    && !Live(v, k) && !Named(v, name) && !IsFile(v, ino)
    && (forall i :: IsFile(w, i) <==> IsFile(v, i) || i == ino)
  }

  lemma AddedLive(v: Vol, w: Vol, k: nat, name: Name, ino: nat)
    requires Added(v, w, k, name, ino)
    ensures forall j :: Live(w, j) <==> Live(v, j) || j == k
    ensures forall j :: Live(v, j) ==> j != k && EntryAt(w, j) == EntryAt(v, j)
    ensures Live(w, k) && NameAt(w, k) == name && InoAt(w, k) == ino && k < DIRENTS_PER_BLOCK * DIRECT_BLOCKS
  {
    hide EntryAt, Named, ValidName;
  }

  lemma AddedDirOk(v: Vol, w: Vol, k: nat, name: Name, ino: nat)
    requires |v.inodes| == MAX_INODES && DirOk(v) && Added(v, w, k, name, ino)
    ensures DirOk(w)
  {
    hide EntryAt, ValidName, Listed;
    AddedLive(v, w, k, name, ino);
    forall i | IsFile(w, i)
      ensures Listed(w, i)
    {
      AddedListed(v, w, k, name, ino, i);
    }
    forall j | Live(v, j)
      ensures NameAt(w, j) != name && InoAt(w, j) != ino && InoAt(w, j) == InoAt(v, j) && NameAt(w, j) == NameAt(v, j)
    {
      assert IsFile(v, InoAt(v, j));
    }
    hide Live, EntryChanged;
    AddedValid(v, w, k, name, ino);
  }

  lemma AddedValid(v: Vol, w: Vol, k: nat, name: Name, ino: nat)
    requires |v.inodes| == MAX_INODES && DirOk(v) && Added(v, w, k, name, ino)
    ensures forall j :: 0 <= j < DirSlots(w) && j < DIRENTS_PER_BLOCK * DIRECT_BLOCKS ==> ValidDirent(EntryAt(w, j))
  {
    hide EntryAt, ValidDirent, Listed, Named;
  }

  lemma AddedListed(v: Vol, w: Vol, k: nat, name: Name, ino: nat, i: nat)
    requires |v.inodes| == MAX_INODES && DirOk(v) && Added(v, w, k, name, ino) && IsFile(w, i)
    ensures Listed(w, i)
  {
    hide EntryAt;
    AddedLive(v, w, k, name, ino);
    if i != ino {
      var j :| Live(v, j) && InoAt(v, j) == i;
      assert Live(w, j);
    }
  }

  /** The table of files gains an empty file. */
  lemma AddedTable(v: Vol, w: Vol, k: nat, name: Name, ino: nat)
    requires |v.inodes| == MAX_INODES && DirOk(v) && Added(v, w, k, name, ino)
    requires forall i :: 0 <= i < MAX_INODES && i != ino ==> Contents(w, i) == Contents(v, i)
    requires Contents(w, ino) == []
    ensures DirOk(w) && Table(w) == Table(v)[name := []]
  {
    hide EntryAt, Contents, DirOk, Table, ValidName, EntryChanged;
    AddedDirOk(v, w, k, name, ino);
    AddedLive(v, w, k, name, ino);
    TableUnique(v, Table(v));
    forall n | n in Table(v)[name := []]
      ensures Named(w, n)
    {
      AddedNamed(v, w, k, name, ino, n);
    }
    forall j | Live(v, j)
      ensures NameAt(w, j) == NameAt(v, j) != name && InoAt(w, j) == InoAt(v, j) && InoAt(v, j) < MAX_INODES
              && InoAt(v, j) != ino
    {
      AddedOther(v, w, k, name, ino, j);
    }
    TableUnique(w, Table(v)[name := []]);
  }

  lemma AddedOther(v: Vol, w: Vol, k: nat, name: Name, ino: nat, j: nat)
    requires |v.inodes| == MAX_INODES && DirOk(v) && Added(v, w, k, name, ino) && Live(v, j)
    ensures Live(w, j) && NameAt(w, j) == NameAt(v, j) != name && InoAt(w, j) == InoAt(v, j)
    ensures InoAt(v, j) < MAX_INODES && InoAt(v, j) != ino
  {
    hide EntryAt, ValidName;
    AddedLive(v, w, k, name, ino);
    assert IsFile(v, InoAt(v, j));
  }

  lemma AddedNamed(v: Vol, w: Vol, k: nat, name: Name, ino: nat, n: Name)
    requires |v.inodes| == MAX_INODES && DirOk(v) && Added(v, w, k, name, ino) && (n == name || Named(v, n))
    ensures Named(w, n)
  {
    hide EntryAt, DirOk;
    AddedLive(v, w, k, name, ino);
    if n != name {
      var j :| Live(v, j) && NameAt(v, j) == n;
      assert Live(w, j);
    }
  }

  // ----------------------------------------------- removing a file by name

  /** From v to w, the directory lost slot k, which named file ino, and that inode is no longer a file. */
  ghost predicate Removed(v: Vol, w: Vol, k: nat, name: Name, ino: nat)
  {
    && |v.inodes| == MAX_INODES == |w.inodes|
    && EntryChanged(v, w, k, FreeDirent()) && DirSlots(w) == DirSlots(v) && EntryFor(v, k, name, ino)
    && (forall i :: IsFile(w, i) <==> IsFile(v, i) && i != ino)
  }

  lemma RemovedLive(v: Vol, w: Vol, k: nat, name: Name, ino: nat)
    requires Removed(v, w, k, name, ino)
    ensures forall j :: Live(w, j) <==> Live(v, j) && j != k
    ensures forall j :: Live(w, j) ==> EntryAt(w, j) == EntryAt(v, j)
  {
    hide EntryAt;
  }

  lemma RemovedDirOk(v: Vol, w: Vol, k: nat, name: Name, ino: nat)
    requires |v.inodes| == MAX_INODES && DirOk(v) && Removed(v, w, k, name, ino)
    ensures DirOk(w)
  {
    hide EntryAt, Listed;
    RemovedLive(v, w, k, name, ino);
    forall i | IsFile(w, i)
      ensures Listed(w, i)
    {
      RemovedListed(v, w, k, name, ino, i);
    }
    forall j | Live(w, j)
      ensures InoAt(w, j) != ino && InoAt(w, j) == InoAt(v, j) && NameAt(w, j) == NameAt(v, j)
    {
      assert IsFile(v, InoAt(v, j));
    }
    hide Live, EntryChanged;
    RemovedValid(v, w, k, name, ino);
  }

  lemma RemovedValid(v: Vol, w: Vol, k: nat, name: Name, ino: nat)
    requires |v.inodes| == MAX_INODES && DirOk(v) && Removed(v, w, k, name, ino)
    ensures forall j :: 0 <= j < DirSlots(w) && j < DIRENTS_PER_BLOCK * DIRECT_BLOCKS ==> ValidDirent(EntryAt(w, j))
  {
    hide EntryAt, ValidDirent, Listed, EntryFor;
  }

  lemma RemovedListed(v: Vol, w: Vol, k: nat, name: Name, ino: nat, i: nat)
    requires |v.inodes| == MAX_INODES && DirOk(v) && Removed(v, w, k, name, ino) && IsFile(w, i)
    ensures Listed(w, i)
  {
    hide EntryAt;
    RemovedLive(v, w, k, name, ino);
    var j :| Live(v, j) && InoAt(v, j) == i;
    assert Live(w, j);
  }

  /** The table of files loses the name. */
  lemma RemovedTable(v: Vol, w: Vol, k: nat, name: Name, ino: nat)
    requires |v.inodes| == MAX_INODES && DirOk(v) && Removed(v, w, k, name, ino)
    requires forall i :: 0 <= i < MAX_INODES && i != ino ==> Contents(w, i) == Contents(v, i)
    ensures DirOk(w) && Table(w) == Table(v) - {name}
  {
    hide EntryAt, Contents, DirOk, Table, EntryChanged, EntryFor;
    RemovedDirOk(v, w, k, name, ino);
    RemovedLive(v, w, k, name, ino);
    TableUnique(v, Table(v));
    forall n | n in Table(v) - {name}
      ensures Named(w, n)
    {
      RemovedNamed(v, w, k, name, ino, n);
    }
    forall j | Live(w, j)
      ensures NameAt(w, j) == NameAt(v, j) != name && InoAt(w, j) == InoAt(v, j) && InoAt(v, j) != ino
    {
      RemovedOther(v, w, k, name, ino, j);
    }
    TableUnique(w, Table(v) - {name});
  }

  lemma RemovedOther(v: Vol, w: Vol, k: nat, name: Name, ino: nat, j: nat)
    requires |v.inodes| == MAX_INODES && DirOk(v) && Removed(v, w, k, name, ino) && Live(w, j)
    ensures Live(v, j) && NameAt(w, j) == NameAt(v, j) != name && InoAt(w, j) == InoAt(v, j) && InoAt(v, j) != ino
  {
    hide EntryAt, Listed;
    RemovedLive(v, w, k, name, ino);
    assert Live(v, j) && Live(v, k) && j != k;
  }

  lemma RemovedNamed(v: Vol, w: Vol, k: nat, name: Name, ino: nat, n: Name)
    requires |v.inodes| == MAX_INODES && Removed(v, w, k, name, ino) && n != name && Named(v, n)
    ensures Named(w, n)
  {
    hide EntryAt;
    RemovedLive(v, w, k, name, ino);
    var j :| Live(v, j) && NameAt(v, j) == n;
    assert Live(w, j);
  }
}
