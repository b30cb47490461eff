/** Searching the root directory: denyfs_vol_lookup and denyfs_vol_readdir. */
module Directory {
  import opened Base
  import opened Codec
  import opened FileMap
  import opened Ownership
  import opened Growth
  import opened Bytes
  import opened FileSystem
  import opened FileOps
  import opened Volume
  import opened BlockMap
  import opened Access

  /** A C string: no NUL inside. */
  type CString = s: seq<byte> | forall i :: 0 <= i < |s| ==> s[i] != 0 witness []

  // --------------------------------------------------------------- one block

  /** Entry e is in use under this name. */
  predicate Matches(e: Dirent, name: Name)
  {
    e.inode != INVALID && NameOf(e) == name
  }

  /** The comparison that the search loops make. */
  lemma MatchTest(e: Dirent, name: Name)
    requires |name| < MAX_NAME_LEN && ValidDirent(e)
    ensures Matches(e, name) <==> e.inode != INVALID && e.nameLen == |name| && e.name[..|name|] == name
  {
  }

  // ---------------------------------------------------------- the root blocks

  /** What searching the directory relies on: the block map, the root inode and well-formed entries. */
  ghost predicate Readable(v: Vol, own: Owners)
  {
    && Mapping(v, own) && InodeShape(v.inodes[0], 0)
    && (forall k :: 0 <= k < DirSlots(v) && k < DIRENTS_PER_BLOCK * DIRECT_BLOCKS ==> ValidDirent(EntryAt(v, k)))
  }

  lemma DirectoryReadable(v: Vol, own: Owners)
    requires Consistent(v, own)
    ensures Readable(v, own) && |v.inodes| == MAX_INODES
  {
    hide Core, Counted, NoHollow, EntryAt, FreeInodeSet, ValidDirent, InodeShape, BitmapBlocks, Listed;
    MappingFacts(v, own);
  }

  lemma SlotIndex(bi: nat, i: nat)
    requires bi < DIRECT_BLOCKS && i < DIRENTS_PER_BLOCK
    ensures var k := DIRENTS_PER_BLOCK * bi + i;
            k < DIRENTS_PER_BLOCK * DIRECT_BLOCKS && k / DIRENTS_PER_BLOCK == bi && k % DIRENTS_PER_BLOCK == i
  {
  }

  /** The root inode's shape, and what is behind its direct pointers. */
  lemma RootBlock(v: Vol, own: Owners, bi: nat)
    requires Readable(v, own) && bi < DIRECT_BLOCKS
    ensures Shape(v) && |v.inodes| == MAX_INODES && 0 < v.inodes[0].blockCount <= DIRECT_BLOCKS
    ensures v.inodes[0].direct[bi] == Phys(v, 0, bi) && bi < MAX_FILE_BLOCKS
    ensures v.inodes[0].direct[bi] != INVALID <==> bi < v.inodes[0].blockCount
    ensures v.inodes[0].direct[bi] != INVALID ==>
              v.inodes[0].direct[bi] < v.total && Load(v.disk, v.inodes[0].direct[bi]) == Block(v, 0, bi)
  {
    hide Mapping, InodeShape, EntryAt, Load, Get;
    MappedRootBlock(v, own, bi);
  }

  lemma MappedRootBlock(v: Vol, own: Owners, bi: nat)
    requires Mapping(v, own) && InodeShape(v.inodes[0], 0) && bi < DIRECT_BLOCKS
    ensures Shape(v) && |v.inodes| == MAX_INODES && 0 < v.inodes[0].blockCount <= DIRECT_BLOCKS
    ensures v.inodes[0].direct[bi] == Phys(v, 0, bi) && bi < MAX_FILE_BLOCKS
    ensures v.inodes[0].direct[bi] != INVALID <==> bi < v.inodes[0].blockCount
    ensures v.inodes[0].direct[bi] != INVALID ==>
              v.inodes[0].direct[bi] < v.total && Load(v.disk, v.inodes[0].direct[bi]) == Block(v, 0, bi)
  {
    hide Core, Counted, NoHollow, BitmapBlocks;
    MappingFacts(v, own);
    PhysInUse(v, own, 0, bi);
  }

  /** Slot k of the directory is entry i of its block bi. */
  lemma SlotOfBlock(v: Vol, bi: nat, i: nat)
    requires |v.inodes| == MAX_INODES && bi < DIRECT_BLOCKS && bi < v.inodes[0].blockCount && i < DIRENTS_PER_BLOCK
    ensures bi < MAX_FILE_BLOCKS && DIRENTS_PER_BLOCK * bi + i < DIRENTS_PER_BLOCK * DIRECT_BLOCKS
    ensures DIRENTS_PER_BLOCK * bi + i < DirSlots(v)
    ensures EntryAt(v, DIRENTS_PER_BLOCK * bi + i) == DecodeDirent(Block(v, 0, bi), i)
    ensures Live(v, DIRENTS_PER_BLOCK * bi + i) <==> DecodeDirent(Block(v, 0, bi), i).inode != INVALID
  {
    hide Block, DecodeDirent;
    SlotIndex(bi, i);
  }

  lemma EntriesValid(v: Vol, own: Owners, bi: nat, i: nat)
    requires Readable(v, own) && |v.inodes| == MAX_INODES && bi < DIRECT_BLOCKS && bi < v.inodes[0].blockCount
             && i < DIRENTS_PER_BLOCK
    ensures ValidDirent(DecodeDirent(Block(v, 0, bi), i))
    ensures Live(v, DIRENTS_PER_BLOCK * bi + i) <==> DecodeDirent(Block(v, 0, bi), i).inode != INVALID
    ensures DIRENTS_PER_BLOCK * bi + i < DIRENTS_PER_BLOCK * DIRECT_BLOCKS
    ensures EntryAt(v, DIRENTS_PER_BLOCK * bi + i) == DecodeDirent(Block(v, 0, bi), i)
  {
    hide Mapping, Block, DecodeDirent, ValidDirent, EntryAt;
    SlotOfBlock(v, bi, i);
  }

  /** Block bi of the root directory; a hole when bi is past its end. */
  method ReadRootBlock(vol: DenyVolume, bi: nat, ghost own: Owners) returns (st: Status, present: bool, data: Sector)
    requires vol.Valid() && Readable(vol.View(), own) && bi < DIRECT_BLOCKS
    ensures vol.Valid() && vol.View() == old(vol.View()) && |vol.View().inodes| == MAX_INODES && bi < MAX_FILE_BLOCKS
    ensures st == OK ==> (present <==> bi < vol.View().inodes[0].blockCount)
    ensures st == OK && present ==> data == Block(vol.View(), 0, bi)
    ensures st == OK || (st == EIO && vol.faulty)
  {
    hide *;
    ghost var v := vol.View();
    RootBlock(v, own, bi);
    RootIndex(bi);
    data := ZeroSector();
    var root := vol.Node(0);
    var block := root.direct[bi];
    if block == INVALID {
      return OK, false, data;
    }
    var ok;
    ok, data := vol.ReadBlock(block);
    st, present := if ok then OK else EIO, true;
  }

  lemma RootIndex(bi: nat)
    requires bi < DIRECT_BLOCKS
    ensures 0 < MAX_INODES
    ensures forall n: Inode :: bi < |n.direct|
  {
  }

  // ------------------------------------------------------------------ lookup

  /** No slot of the first n root blocks is in use under this name. */
  ghost predicate NotBefore(v: Vol, name: Name, n: nat)
    requires |v.inodes| == MAX_INODES
  {
    forall k :: Live(v, k) && k < DIRENTS_PER_BLOCK * n ==> NameAt(v, k) != name
  }

  lemma NotInBlock(v: Vol, own: Owners, name: Name, bi: nat)
    requires Readable(v, own) && |v.inodes| == MAX_INODES && NotBefore(v, name, bi) && bi < DIRECT_BLOCKS
    requires bi < v.inodes[0].blockCount ==>
               forall j :: 0 <= j < DIRENTS_PER_BLOCK ==> !Matches(DecodeDirent(Block(v, 0, bi), j), name)
    ensures NotBefore(v, name, bi + 1)
  {
    hide Readable, Block, DecodeDirent;
    forall k | Live(v, k) && DIRENTS_PER_BLOCK * bi <= k < DIRENTS_PER_BLOCK * (bi + 1)
      ensures NameAt(v, k) != name
    {
      var j := k - DIRENTS_PER_BLOCK * bi;
      SlotIndex(bi, j);
      assert !Matches(DecodeDirent(Block(v, 0, bi), j), name);
    }
  }

  lemma NotAnywhere(v: Vol, name: Name)
    requires |v.inodes| == MAX_INODES && NotBefore(v, name, DIRECT_BLOCKS)
    ensures !Named(v, name)
  {
    hide EntryAt;
  }

  lemma NotYet(v: Vol, name: Name)
    requires |v.inodes| == MAX_INODES
    ensures NotBefore(v, name, 0) && MAX_NAME_LEN == 251
  {
  }

  /** Slot k is the entry for a name, and inode ino what it names. */
  ghost predicate EntryFor(v: Vol, k: nat, name: Name, ino: nat)
  {
    |v.inodes| == MAX_INODES && Live(v, k) && NameAt(v, k) == name && InoAt(v, k) == ino
  }

  /** A name has one entry. */
  lemma EntryUnique(v: Vol, k: nat, k': nat, name: Name, ino: nat, ino': nat)
    requires |v.inodes| == MAX_INODES && DirOk(v) && EntryFor(v, k, name, ino) && EntryFor(v, k', name, ino')
    ensures k == k' && ino == ino'
  {
    hide EntryAt, Listed;
  }

  /** A change of one file's bytes leaves the directory as it is. */
  lemma EntryRemains(v: Vol, own: Owners, v': Vol, own': Owners, k: nat, name: Name, ino: nat, f: nat)
    requires Consistent(v, own) && |v.inodes| == MAX_INODES && FileChanged(v, v', own', f) && EntryFor(v, k, name, ino)
    ensures |v'.inodes| == MAX_INODES && EntryFor(v', k, name, ino)
  {
    hide Consistent, Mapping, OtherBlocks, EntryAt, SameDirectory;
    FileChangedDirectory(v, v', own', f);
    DirectoryFrame(v, v');
  }

  lemma FoundEntry(v: Vol, own: Owners, bi: nat, i: nat, name: Name)
    requires Readable(v, own) && |v.inodes| == MAX_INODES && bi < DIRECT_BLOCKS && bi < v.inodes[0].blockCount
             && i < DIRENTS_PER_BLOCK
    requires Matches(DecodeDirent(Block(v, 0, bi), i), name)
    ensures EntryFor(v, DIRENTS_PER_BLOCK * bi + i, name, DecodeDirent(Block(v, 0, bi), i).inode)
  {
    hide Readable, Block, DecodeDirent;
    EntriesValid(v, own, bi, i);
  }

  /** The search loop over the entries of one root block. */
  method SearchBlock(vol: DenyVolume, bi: nat, data: Sector, name: Name, ghost own: Owners)
    returns (found: bool, st: Status, i: nat)
    requires vol.Valid() && Readable(vol.View(), own) && |vol.View().inodes| == MAX_INODES && |name| < MAX_NAME_LEN
    requires bi < DIRECT_BLOCKS && bi < vol.View().inodes[0].blockCount && bi < MAX_FILE_BLOCKS
             && data == Block(vol.View(), 0, bi)
    ensures vol.Valid() && vol.View() == old(vol.View()) && st == OK
    ensures found ==> i < DIRENTS_PER_BLOCK && Matches(DecodeDirent(data, i), name)
    ensures !found ==> forall j :: 0 <= j < DIRENTS_PER_BLOCK ==> !Matches(DecodeDirent(data, j), name)
  {
    hide *;
    found, st, i := false, OK, 0;
    while i < DIRENTS_PER_BLOCK
      invariant i <= DIRENTS_PER_BLOCK && vol.Valid() && vol.View() == old(vol.View())
      invariant forall j :: 0 <= j < i ==> !Matches(DecodeDirent(data, j), name)
    {
      var e := DecodeDirent(data, i);
      EntriesValid(vol.View(), own, bi, i);
      if !ValidDirent(e) {
        return false, EIO, i;
      }
      MatchTest(e, name);
      if e.inode != INVALID && e.nameLen == |name| && e.name[..|name|] == name {
        found := true;
        return;
      }
      i := i + 1;
    }
  }

  /** The search loop of denyfs_vol_lookup and remove_dirent: the slot that holds a name. */
  method FindName(vol: DenyVolume, name: Name, ghost own: Owners) returns (st: Status, bi: nat, i: nat, data: Sector)
    requires vol.Valid() && Readable(vol.View(), own) && |name| < MAX_NAME_LEN
    ensures vol.Valid() && vol.View() == old(vol.View()) && |vol.View().inodes| == MAX_INODES
    ensures st == OK ==>
              bi < DIRECT_BLOCKS && i < DIRENTS_PER_BLOCK && bi < vol.View().inodes[0].blockCount
                 && bi < MAX_FILE_BLOCKS
    ensures st == OK ==> data == Block(vol.View(), 0, bi)
    ensures st == OK ==> EntryFor(vol.View(), DIRENTS_PER_BLOCK * bi + i, name, DecodeDirent(data, i).inode)
    ensures st == ENOENT ==> !Named(vol.View(), name)
    ensures st == OK || st == ENOENT || (st == EIO && vol.faulty)
  {
    hide *;
    ghost var v := vol.View();
    FewBlocks();
    RootBlock(v, own, 0);
    NotYet(v, name);
    data := ZeroSector();
    bi, i := 0, 0;
    while bi < DIRECT_BLOCKS
      invariant bi <= DIRECT_BLOCKS && vol.Valid() && vol.View() == v && NotBefore(v, name, bi)
    {
      var present;
      st, present, data := ReadRootBlock(vol, bi, own);
      if st != OK {
        return;
      }
      if present {
        var found;
        found, st, i := SearchBlock(vol, bi, data, name, own);
        if found {
          FoundEntry(v, own, bi, i, name);
          return;
        }
      }
      NotInBlock(v, own, name, bi);
      bi := bi + 1;
    }
    NotAnywhere(v, name);
    st := ENOENT;
  }

  lemma FewBlocks()
    ensures DIRECT_BLOCKS <= MAX_FILE_BLOCKS && 0 < DIRECT_BLOCKS && DIRENTS_PER_BLOCK > 0
  {
  }

  /** denyfs_vol_lookup. */
  method VolLookup(vol: DenyVolume, name: CString, ghost own: Owners) returns (st: Status, ino: u32, ghost k: nat)
    requires vol.Valid() && Consistent(vol.View(), own)
    ensures vol.Valid() && vol.View() == old(vol.View()) && |vol.View().inodes| == MAX_INODES
    ensures st == EINVAL <==> |name| == 0 || |name| >= MAX_NAME_LEN
    ensures st == OK ==> EntryFor(vol.View(), k, name, ino)
    ensures st == ENOENT ==> !Named(vol.View(), name)
    ensures st == OK || st == EINVAL || st == ENOENT || (st == EIO && vol.faulty)
  {
    hide *;
    DirectoryReadable(vol.View(), own);
    ino, k := 0, 0;
    if |name| == 0 || |name| >= MAX_NAME_LEN {
      return EINVAL, ino, k;
    }
    var bi, i, data;
    st, bi, i, data := FindName(vol, name, own);
    if st == OK {
      ino, k := DecodeDirent(data, i).inode, DIRENTS_PER_BLOCK * bi + i;
    }
  }

  /** Looking a name up answers whether the table of files has it, and with which contents. */
  lemma LookupMeaning(v: Vol, own: Owners, name: Name, k: nat, ino: nat)
    requires |v.inodes| == MAX_INODES && DirOk(v) && Consistent(v, own)
    ensures name in Table(v) <==> Named(v, name)
    ensures EntryFor(v, k, name, ino) ==>
              IsFile(v, ino) && ino != 0 && ino < MAX_INODES && name in Table(v) && Table(v)[name] == Contents(v, ino)
  {
    hide Contents, EntryAt, Mapping, Shaped, FreeInodeSet;
    if EntryFor(v, k, name, ino) {
      FileSize(v, own, ino);
      assert Named(v, name);
      assert SlotOf(v, name) == k;
    }
  }

  // ----------------------------------------------------------------- readdir

  type Entry = (Name, u32)

  /** The entries in use among the first n slots, in slot order. */
  ghost function Listing(v: Vol, n: nat): (l: seq<Entry>)
    requires |v.inodes| == MAX_INODES
  {
    if n == 0 then [] else if Live(v, n - 1) then Listing(v, n - 1) + [(NameAt(v, n - 1),
        InoAt(v, n - 1))] else Listing(v, n - 1)
  }

  /** The callback has seen the listing of the first n slots, one entry more each time, and never asked to stop. */
  ghost predicate Delivered(v: Vol, n: nat, seen: seq<Entry>, stop: seq<Entry> -> bool)
    requires |v.inodes| == MAX_INODES
  {
    seen == Listing(v, n) && forall j :: 0 < j <= |seen| ==> !stop(seen[..j])
  }

  /** The callback asked to stop at the last entry of seen, and not before; the directory lists seen first. */
  ghost predicate Stopped(v: Vol, n: nat, seen: seq<Entry>, stop: seq<Entry> -> bool)
    requires |v.inodes| == MAX_INODES
  {
    && seen != [] && stop(seen) && (forall j :: 0 < j < |seen| ==> !stop(seen[..j]))
    && |seen| <= |Listing(v, n)| && Listing(v, n)[..|seen|] == seen
  }

  lemma ListStep(v: Vol, n: nat, seen: seq<Entry>, stop: seq<Entry> -> bool)
    requires |v.inodes| == MAX_INODES && Delivered(v, n, seen, stop)
    ensures !Live(v, n) ==> Delivered(v, n + 1, seen, stop)
    ensures Live(v, n) ==>
              var next := seen + [(NameAt(v, n), InoAt(v, n))];
              if stop(next) then Stopped(v, n + 1, next, stop) else Delivered(v, n + 1, next, stop)
  {
    hide EntryAt;
    if Live(v, n) {
      var next := seen + [(NameAt(v, n), InoAt(v, n))];
      assert next[..|next|] == next;
      forall j | 0 < j < |next|
        ensures next[..j] == seen[..j]
      {
      }
    }
  }

  lemma {:induction false} ListingPrefix(v: Vol, n: nat, m: nat)
    requires |v.inodes| == MAX_INODES && n <= m
    ensures |Listing(v, n)| <= |Listing(v, m)| && Listing(v, m)[..|Listing(v, n)|] == Listing(v, n)
    decreases m
  {
    hide Live;
    if n < m {
      ListingPrefix(v, n, m - 1);
    }
  }

  /** What a stopped callback saw is the beginning of the whole listing. */
  lemma StoppedLater(v: Vol, n: nat, m: nat, seen: seq<Entry>, stop: seq<Entry> -> bool)
    requires |v.inodes| == MAX_INODES && n <= m && Stopped(v, n, seen, stop)
    ensures Stopped(v, m, seen, stop)
  {
    hide Listing;
    ListingPrefix(v, n, m);
    assert Listing(v, m)[..|seen|] == Listing(v, n)[..|seen|];
  }

  lemma {:induction false} ListingPast(v: Vol, n: nat)
    requires |v.inodes| == MAX_INODES && DirSlots(v) <= n
    ensures Listing(v, n) == Listing(v, DirSlots(v))
  {
    hide EntryAt;
    if DirSlots(v) < n {
      ListingPast(v, n - 1);
    }
  }

  method ListBlock(vol: DenyVolume, bi: nat, data: Sector, stop: seq<Entry> -> bool, before: seq<Entry>,
                   ghost own: Owners)
    returns (st: Status, stopped: bool, seen: seq<Entry>)
    requires vol.Valid() && Readable(vol.View(), own) && |vol.View().inodes| == MAX_INODES
    requires bi < DIRECT_BLOCKS && bi < vol.View().inodes[0].blockCount && bi < MAX_FILE_BLOCKS
             && data == Block(vol.View(), 0, bi)
    requires Delivered(vol.View(), DIRENTS_PER_BLOCK * bi, before, stop)
    ensures vol.Valid() && vol.View() == old(vol.View()) && st == OK
    ensures stopped ==> Stopped(vol.View(), DIRENTS_PER_BLOCK * DIRECT_BLOCKS, seen, stop)
    ensures !stopped ==> Delivered(vol.View(), DIRENTS_PER_BLOCK * (bi + 1), seen, stop)
  {
    hide *;
    stopped, st, seen := false, OK, before;
    ghost var v := vol.View();
    NextBlock(bi, DIRENTS_PER_BLOCK);
    var i := 0;
    while i < DIRENTS_PER_BLOCK
      invariant i <= DIRENTS_PER_BLOCK && vol.Valid() && vol.View() == v
      invariant Delivered(v, DIRENTS_PER_BLOCK * bi + i, seen, stop)
    {
      var e := DecodeDirent(data, i);
      NextBlock(bi, i);
      EntriesValid(v, own, bi, i);
      SlotEntry(v, bi, i, e);
      ListStep(v, DIRENTS_PER_BLOCK * bi + i, seen, stop);
      if !ValidDirent(e) {
        return EIO, false, seen;
      }
      if e.inode != INVALID {
        seen := seen + [(NameOf(e), e.inode)];
        if stop(seen) {
          StoppedLater(v, DIRENTS_PER_BLOCK * bi + i + 1, DIRENTS_PER_BLOCK * DIRECT_BLOCKS, seen, stop);
          stopped := true;
          return;
        }
      }
      i := i + 1;
    }
  }

  lemma NextBlock(bi: nat, i: nat)
    requires bi < DIRECT_BLOCKS && i <= DIRENTS_PER_BLOCK
    ensures DIRENTS_PER_BLOCK * bi + DIRENTS_PER_BLOCK == DIRENTS_PER_BLOCK * (bi + 1)
    ensures DIRENTS_PER_BLOCK * bi + i <= DIRENTS_PER_BLOCK * DIRECT_BLOCKS
    ensures i < DIRENTS_PER_BLOCK ==> DIRENTS_PER_BLOCK * bi + i + 1 <= DIRENTS_PER_BLOCK * DIRECT_BLOCKS
  {
  }

  lemma SlotEntry(v: Vol, bi: nat, i: nat, e: Dirent)
    requires |v.inodes| == MAX_INODES && bi < DIRECT_BLOCKS && i < DIRENTS_PER_BLOCK
    requires DIRENTS_PER_BLOCK * bi + i < DIRENTS_PER_BLOCK * DIRECT_BLOCKS
             && EntryAt(v, DIRENTS_PER_BLOCK * bi + i) == e
    ensures Live(v, DIRENTS_PER_BLOCK * bi + i) ==>
              NameAt(v, DIRENTS_PER_BLOCK * bi + i) == NameOf(e) && InoAt(v, DIRENTS_PER_BLOCK * bi + i) == e.inode
  {
    hide EntryAt;
  }

  /** denyfs_vol_readdir; stop stands for the callback, which decides on all the entries it has been given. */
  method VolReadDir(vol: DenyVolume, stop: seq<Entry> -> bool, ghost own: Owners) returns (st: Status, seen: seq<Entry>)
    requires vol.Valid() && Consistent(vol.View(), own)
    ensures vol.Valid() && vol.View() == old(vol.View()) && |vol.View().inodes| == MAX_INODES
    ensures st == OK ==> Delivered(vol.View(), DIRENTS_PER_BLOCK * DIRECT_BLOCKS, seen, stop) ||
                         Stopped(vol.View(), DIRENTS_PER_BLOCK * DIRECT_BLOCKS, seen, stop)
    ensures st == OK || (st == EIO && vol.faulty)
  {
    hide *;
    ghost var v := vol.View();
    FewBlocks();
    DirectoryReadable(v, own);
    seen := [];
    DeliveredNone(v, stop);
    var bi := 0;
    while bi < DIRECT_BLOCKS
      invariant bi <= DIRECT_BLOCKS && vol.Valid() && vol.View() == v
      invariant Delivered(v, DIRENTS_PER_BLOCK * bi, seen, stop)
    {
      var present, data;
      st, present, data := ReadRootBlock(vol, bi, own);
      if st != OK {
        return;
      }
      if present {
        var stopped;
        st, stopped, seen := ListBlock(vol, bi, data, stop, seen, own);
        if stopped {
          return;
        }
      } else {
        DeliveredPast(v, bi, seen, stop);
      }
      bi := bi + 1;
    }
    st := OK;
  }

  lemma DeliveredNone(v: Vol, stop: seq<Entry> -> bool)
    requires |v.inodes| == MAX_INODES
    ensures Delivered(v, DIRENTS_PER_BLOCK * 0, [], stop)
  {
  }

  lemma DeliveredPast(v: Vol, bi: nat, seen: seq<Entry>, stop: seq<Entry> -> bool)
    requires |v.inodes| == MAX_INODES && bi >= v.inodes[0].blockCount
    requires Delivered(v, DIRENTS_PER_BLOCK * bi, seen, stop)
    ensures Delivered(v, DIRENTS_PER_BLOCK * (bi + 1), seen, stop)
  {
    hide Listing;
    ListingPast(v, DIRENTS_PER_BLOCK * bi);
    ListingPast(v, DIRENTS_PER_BLOCK * (bi + 1));
  }

  /** l lists the files of a table: every name once, with the inode that holds its contents. */
  ghost predicate Lists(v: Vol, l: seq<Entry>, fs: FileTable)
    requires |v.inodes| == MAX_INODES
  {
    && (forall j :: 0 <= j < |l| ==> l[j].1 < MAX_INODES && l[j].0 in fs && fs[l[j].0] == Contents(v, l[j].1))
    && (forall i, j :: 0 <= i < j < |l| ==> l[i].0 != l[j].0)
    && (forall name :: name in fs ==> exists j :: 0 <= j < |l| && l[j].0 == name)
  }

  /** Entry j of the listing of n slots comes from some slot below n. */
  lemma {:induction false} ListingSource(v: Vol, n: nat, j: nat) returns (k: nat)
    requires |v.inodes| == MAX_INODES && j < |Listing(v, n)|
    ensures k < n && Live(v, k) && Listing(v, n)[j] == (NameAt(v, k), InoAt(v, k)) && |Listing(v, k)| == j
  {
    hide EntryAt;
    if Live(v, n - 1) && j == |Listing(v, n - 1)| {
      k := n - 1;
    } else {
      k := ListingSource(v, n - 1, j);
    }
  }

  lemma {:induction false} ListingHas(v: Vol, n: nat, k: nat)
    requires |v.inodes| == MAX_INODES && k < n && Live(v, k)
    ensures |Listing(v, k)| < |Listing(v, n)| && Listing(v, n)[|Listing(v, k)|] == (NameAt(v, k), InoAt(v, k))
    decreases n
  {
    hide EntryAt;
    if k < n - 1 {
      ListingHas(v, n - 1, k);
    }
  }

  /** The whole listing is the table of files. */
  lemma ListingMeaning(v: Vol, own: Owners)
    requires |v.inodes| == MAX_INODES && DirOk(v) && Consistent(v, own)
    ensures Lists(v, Listing(v, DIRENTS_PER_BLOCK * DIRECT_BLOCKS), Table(v))
  {
    hide Contents, EntryAt, Mapping, Shaped, FreeInodeSet, Listing, DirOk, Table, Live;
    var n := DIRENTS_PER_BLOCK * DIRECT_BLOCKS;
    var l := Listing(v, n);
    forall j | 0 <= j < |l|
      ensures l[j].1 < MAX_INODES && l[j].0 in Table(v) && Table(v)[l[j].0] == Contents(v, l[j].1)
    {
      var k := ListingSource(v, n, j);
      LookupMeaning(v, own, l[j].0, k, l[j].1);
    }
    forall i, j | 0 <= i < j < |l|
      ensures l[i].0 != l[j].0
    {
      var a := ListingSource(v, n, i);
      var b := ListingSource(v, n, j);
      DistinctNames(v, a, b);
    }
    forall name | name in Table(v)
      ensures exists j :: 0 <= j < |l| && l[j].0 == name
    {
      LookupMeaning(v, own, name, 0, 0);
      ListingName(v, name);
    }
  }

  /** The listing is in the order of the slots. */
  lemma ListingOrder(v: Vol, n: nat, i: nat, j: nat, a: nat, b: nat)
    requires |v.inodes| == MAX_INODES && DirOk(v) && i < j < |Listing(v, n)| && Live(v, a) && Live(v, b)
    requires NameAt(v, a) == Listing(v, n)[i].0 && NameAt(v, b) == Listing(v, n)[j].0
    ensures a < b
  {
    hide DirOk, EntryAt, Listing, Live;
    var ka := ListingSource(v, n, i);
    var kb := ListingSource(v, n, j);
    DistinctNames(v, a, ka);
    DistinctNames(v, b, kb);
    if b <= a { ListingShorter(v, b, a); }
  }

  lemma {:induction false} ListingShorter(v: Vol, m: nat, n: nat)
    requires |v.inodes| == MAX_INODES && m <= n
    ensures |Listing(v, m)| <= |Listing(v, n)|
    decreases n
  {
    hide Live;
    if m < n { ListingShorter(v, m, n - 1); }
  }

  lemma DistinctNames(v: Vol, a: nat, b: nat)
    requires |v.inodes| == MAX_INODES && DirOk(v) && Live(v, a) && Live(v, b)
    ensures NameAt(v, a) == NameAt(v, b) ==> a == b
  {
    hide EntryAt, Listed;
  }

  lemma ListingName(v: Vol, name: Name)
    requires |v.inodes| == MAX_INODES && Named(v, name)
    ensures exists j :: 0 <= j < |Listing(v, DIRENTS_PER_BLOCK * DIRECT_BLOCKS)|
                        && Listing(v, DIRENTS_PER_BLOCK * DIRECT_BLOCKS)[j].0 == name
  {
    hide EntryAt, Listing;
    var k :| Live(v, k) && NameAt(v, k) == name;
    ListingHas(v, DIRENTS_PER_BLOCK * DIRECT_BLOCKS, k);
  }
}
