/** Uploading files to a mounted volume, as the dashboard does: all of a file or none of it, and when they all fit. */
module Uploads {
  import opened Base
  import opened Codec
  import opened FileMap
  import opened Ownership
  import opened Growth
  import opened Files
  import opened Bytes
  import opened FileSystem
  import opened FileOps
  import opened Persist
  import opened Volume
  import opened Access
  import opened Resizing
  import opened Directory
  import opened Dirents
  import opened Create
  import opened Format
  import opened Unlink
  import opened Scan
  import opened Runs
  import opened Capacity

  // --------------------------------------------- appending to a file without holes

  /** The price of an append to a file without holes is the difference of the full costs. */
  lemma AppendPrice(v: Vol, own: Owners, ino: nat, len: nat)
    requires Sound(v, own) && |v.inodes| == MAX_INODES && 0 < ino < MAX_INODES && Full(v, ino)
    requires v.inodes[ino].size + len <= MAX_FILE_SIZE
    ensures |SpaceNeeded(v, ino, v.inodes[ino].size, len)| + Cost(BlocksFor(v.inodes[ino].size)) ==
            Cost(BlocksFor(v.inodes[ino].size + len))
  {
    hide *;
    var size: nat := v.inodes[ino].size;
    var n, n' := BlocksFor(size), BlocksFor(size + len);
    AppendBlocks(size, len);
    FullSlots(v, own, ino);
    NeedOnPaths(v, ino, size, len, n');
    AppendCovers(v, ino, size, len);
    PathsGrow(n, n');
    SplitSize(SpaceNeeded(v, ino, size, len), PathSlots(n), PathSlots(n'));
    PathSlotsCount(n);
    PathSlotsCount(n');
  }

  lemma AppendBlocks(size: nat, len: nat)
    requires size + len <= MAX_FILE_SIZE
    ensures size / SECTOR_SIZE <= BlocksFor(size) <= BlocksFor(size + len) <= MAX_FILE_BLOCKS
  {
  }

  lemma SplitSize(a: set<Loc>, b: set<Loc>, c: set<Loc>)
    requires a !! b && a <= c && b <= c && c <= a + b
    ensures |a| + |b| == |c|
  {
    assert a + b == c;
    assert |a + b| == |a| + |b|;
  }

  /** A file without holes uses exactly the slots on the paths of its blocks. */
  lemma FullSlots(v: Vol, own: Owners, ino: nat)
    requires Sound(v, own) && |v.inodes| == MAX_INODES && 0 < ino < MAX_INODES && Full(v, ino)
    ensures BlocksFor(v.inodes[ino].size) <= MAX_FILE_BLOCKS
    ensures UsedSlots(v, ino) == PathSlots(BlocksFor(v.inodes[ino].size))
  {
    hide Sound, Mapping, BitmapBlocks, UsedSlots, PathSlots, Ref;
    SoundCore(v, own);
    ExtentHolds(v, own, ino);
    var n := BlocksFor(v.inodes[ino].size);
    forall l | l in PathSlots(n)
      ensures l in UsedSlots(v, ino)
    {
      FullPaths(v, own, ino, n, l);
      UsedSlot(v, ino, l);
    }
  }

  lemma AppendCovers(v: Vol, ino: nat, size: nat, len: nat)
    requires |v.inodes| == MAX_INODES && ino < MAX_INODES && size + len <= MAX_FILE_SIZE
    requires BlocksFor(size) <= MAX_FILE_BLOCKS && UsedSlots(v, ino) == PathSlots(BlocksFor(size))
    requires BlocksFor(size + len) <= MAX_FILE_BLOCKS
    ensures PathSlots(BlocksFor(size + len)) <= SpaceNeeded(v, ino, size, len) + PathSlots(BlocksFor(size))
  {
    hide UsedSlots, PathSlots, Ref, MissingRange, Need;
    AppendBlocks(size, len);
    var n, n' := BlocksFor(size), BlocksFor(size + len);
    forall l | l in PathSlots(n') && l !in PathSlots(n)
      ensures l in SpaceNeeded(v, ino, size, len)
    {
      var lb := PathOfSlot(n, n', l);
      PathSlotsValid(n', l);
      UsedSlot(v, ino, l);
      MissingWithin(v, ino, size / SECTOR_SIZE, n', lb);
      assert l in Missing(v, ino, lb);
    }
  }

  /** A slot that n' paths have and the first n have not serves one of the blocks between. */
  lemma {:induction false} PathOfSlot(n: nat, n': nat, l: Loc) returns (lb: nat)
    requires n <= n' <= MAX_FILE_BLOCKS && l in PathSlots(n') && l !in PathSlots(n)
    ensures n <= lb < n' && l in Need(lb)
    decreases n'
  {
    hide Need;
    if l in Need(n' - 1) {
      lb := n' - 1;
    } else {
      lb := PathOfSlot(n, n' - 1, l);
    }
  }

  lemma AppendFull(v: Vol, v': Vol, own': Owners, ino: nat, src: seq<byte>)
    requires |v.inodes| == MAX_INODES && ino < MAX_INODES && Full(v, ino)
    requires WriteEffect(v, v', own', ino, src, v.inodes[ino].size)
    ensures |v'.inodes| == MAX_INODES && v'.inodes[ino].size == v.inodes[ino].size + |src| && Full(v', ino)
  {
    hide Mapping, OtherBlocks, NothingPast, ZeroTail, Contents, Overwrite, BitmapBlocks, SpaceNeeded, Ref;
    var size := v.inodes[ino].size;
    forall lb | 0 <= lb < BlocksFor(size + |src|) && lb < MAX_FILE_BLOCKS
      ensures Phys(v', ino, lb) != INVALID
    {
      if lb >= BlocksFor(size) { PastEnd(size, |src|, lb); }
    }
  }

  lemma PastEnd(size: nat, len: nat, lb: nat)
    requires BlocksFor(size) <= lb < BlocksFor(size + len)
    ensures size / SECTOR_SIZE <= lb && lb * SECTOR_SIZE < size + len && len > 0
  {
  }

  lemma CostGrows(a: nat, b: nat)
    requires a <= b
    ensures Cost(BlocksFor(a)) <= Cost(BlocksFor(b))
  {
  }

  // ---------------------------------------------------------------- one file

  /** The slots of the directory in use. */
  ghost function LiveSlots(v: Vol): (ks: set<nat>)
    requires |v.inodes| == MAX_INODES
  {
    set k | k in Interval(0, DIRENTS_PER_BLOCK * DIRECT_BLOCKS) && Live(v, k)
  }

  /** One block more for the directory when every slot is in use. */
  ghost function EntryCost(v: Vol): (n: nat)
    requires |v.inodes| == MAX_INODES
  {
    if DirFull(v) then 1 else 0
  }

  /** A file of that name and size can be added. */
  ghost predicate RoomFor(v: Vol, name: Name, size: nat)
  {
    && |v.inodes| == MAX_INODES && ValidName(name) && !Named(v, name) && v.freeInodes > 0
    && size <= MAX_FILE_SIZE && EntryCost(v) + Cost(BlocksFor(size)) <= v.freeBlocks
  }

  /** What adding a file of `size` bytes uses up. */
  ghost predicate Spent(v0: Vol, v: Vol, size: nat)
  {
    && |v0.inodes| == MAX_INODES == |v.inodes|
    && v.freeInodes + 1 == v0.freeInodes
    && v.freeBlocks + EntryCost(v0) + Cost(BlocksFor(size)) == v0.freeBlocks
    && v.inodes[0].blockCount == v0.inodes[0].blockCount + EntryCost(v0)
    && |LiveSlots(v)| == |LiveSlots(v0)| + 1
  }

  /** The first n pieces of a file's bytes. */
  function Joined(pieces: seq<seq<byte>>, n: nat): (c: seq<byte>)
    requires n <= |pieces|
  {
    if n == 0 then [] else Joined(pieces, n - 1) + pieces[n - 1]
  }

  lemma {:induction false} JoinedLength(pieces: seq<seq<byte>>, m: nat, n: nat)
    requires m <= n <= |pieces|
    ensures |Joined(pieces, m)| <= |Joined(pieces, n)|
    decreases n
  {
    if m < n { JoinedLength(pieces, m, n - 1); }
  }

  /** A new file, so far with bytes c and without holes. */
  ghost predicate Growing(v0: Vol, v: Vol, own: Owners, k: nat, name: Name, ino: nat, c: seq<byte>)
  {
    && |v0.inodes| == MAX_INODES == |v.inodes| && DirOk(v0) && name !in Table(v0)
    && Ready(v, own) && DirOk(v) && Table(v) == Table(v0)[name := c]
    && EntryFor(v, k, name, ino) && 0 < ino < MAX_INODES && v.inodes[ino].size == |c| && Full(v, ino)
    && Spent(v0, v, |c|)
  }

  lemma GrowingFacts(v0: Vol, v: Vol, own: Owners, k: nat, name: Name, ino: nat, c: seq<byte>)
    requires Growing(v0, v, own, k, name, ino, c)
    ensures |v0.inodes| == MAX_INODES && DirOk(v0) && name !in Table(v0)
    ensures Ready(v, own) && |v.inodes| == MAX_INODES && DirOk(v) && Table(v) == Table(v0)[name := c]
    ensures EntryFor(v, k, name, ino) && 0 < ino < MAX_INODES && v.inodes[ino].size == |c| && Full(v, ino)
    ensures Spent(v0, v, |c|)
  {
    hide Ready, DirOk, Table, EntryFor, Full, Spent;
  }

  /** A change of one file's bytes leaves the directory as it is. */
  lemma EntryStays(v: Vol, own: Owners, v': Vol, own': Owners, k: nat, name: Name, ino: nat, f: nat)
    requires Consistent(v, own) && |v.inodes| == MAX_INODES && FileChanged(v, v', own', f) && EntryFor(v, k, name, ino)
    ensures |v'.inodes| == MAX_INODES && EntryFor(v', k, name, ino) && LiveSlots(v') == LiveSlots(v)
  {
    hide Consistent, Mapping, OtherBlocks, EntryAt, SameDirectory;
    EntryRemains(v, own, v', own', k, name, ino, f);
    FileChangedDirectory(v, v', own', f);
    DirectoryFrame(v, v');
  }

  lemma GrowingStart(v0: Vol, own0: Owners, v: Vol, own: Owners, k: nat, name: Name, ino: nat)
    requires Ready(v0, own0) && Ready(v, own) && CreateEffect(v0, v, own, name, ino, k)
    ensures Growing(v0, v, own, k, name, ino, [])
  {
    hide *;
    ReadyFacts(v0, own0);
    ReadyFacts(v, own);
    CreateTable(v0, v, own, name, ino, k);
    StartSpent(v0, own0, v, own, k, name, ino);
    GrowingIntro(v0, v, own, k, name, ino, []);
  }

  lemma GrowingIntro(v0: Vol, v: Vol, own: Owners, k: nat, name: Name, ino: nat, c: seq<byte>)
    requires |v0.inodes| == MAX_INODES && DirOk(v0) && name !in Table(v0)
    requires Ready(v, own) && |v.inodes| == MAX_INODES && DirOk(v) && Table(v) == Table(v0)[name := c]
    requires EntryFor(v, k, name, ino) && 0 < ino < MAX_INODES && v.inodes[ino].size == |c| && Full(v, ino)
    requires Spent(v0, v, |c|)
    ensures Growing(v0, v, own, k, name, ino, c)
  {
    hide Ready, DirOk, Table, EntryFor, Full, Spent;
  }

  lemma StartSpent(v0: Vol, own0: Owners, v: Vol, own: Owners, k: nat, name: Name, ino: nat)
    requires CreateEffect(v0, v, own, name, ino, k) && |v.inodes| == MAX_INODES
    ensures EntryFor(v, k, name, ino) && 0 < ino < MAX_INODES && v.inodes[ino].size == 0 && Full(v, ino)
    ensures Spent(v0, v, 0)
  {
    hide Consistent, OtherBlocks, RefsKept, BitmapBlocks, EntryAt, NothingPast, ZeroTail, DirFull, Phys, Live,
         LiveSlots, ValidName, EntryChanged, Named;
    AddedLive(v0, v, k, name, ino);
    OneMoreSlot(v0, v, k, name, ino);
  }

  lemma OneMoreSlot(v0: Vol, v: Vol, k: nat, name: Name, ino: nat)
    requires Added(v0, v, k, name, ino) && |v0.inodes| == MAX_INODES == |v.inodes|
    ensures |LiveSlots(v)| == |LiveSlots(v0)| + 1
  {
    AddedLive(v0, v, k, name, ino);
    hide Live, Added;
    assert LiveSlots(v) == LiveSlots(v0) + {k};
    assert k !in LiveSlots(v0);
  }

  lemma GrowingMore(v0: Vol, v: Vol, own: Owners, k: nat, name: CString, ino: nat, c: seq<byte>, piece: seq<byte>,
                    v': Vol, own': Owners, k': nat, ino': nat, now: u64)
    requires Growing(v0, v, own, k, name, ino, c) && EntryFor(v, k', name, ino')
    requires WriteEffect(v, v', own', ino', piece, |c|) && Ready(v', own')
    requires |v.inodes| == MAX_INODES == |v'.inodes| && DirOk(v) && DirOk(v')
    requires Step(Table(v), Store(name, piece, |c|, now), Done, Table(v'))
    ensures Growing(v0, v', own', k, name, ino, c + piece)
  {
    hide *;
    GrowingFacts(v0, v, own, k, name, ino, c);
    EntryUnique(v, k, k', name, ino, ino');
    ReadyFacts(v, own);
    WriteFacts(v, v', own', ino, piece, |c|);
    EntryStays(v, own, v', own', k, name, ino, ino);
    AppendFull(v, v', own', ino, piece);
    SoundOf(v, own);
    AppendPrice(v, own, ino, |piece|);
    AppendSpent(v0, v, v', own', c, piece, ino);
    AppendStep(Table(v), name, c, piece, now, Table(v'));
    AppendTable(Table(v0), name, c, c + piece);
    GrowingIntro(v0, v', own', k, name, ino, c + piece);
  }

  lemma SoundOf(v: Vol, own: Owners)
    requires Ready(v, own)
    ensures Sound(v, own)
  {
    hide Sound;
  }

  lemma AppendSpent(v0: Vol, v: Vol, v': Vol, own': Owners, c: seq<byte>, piece: seq<byte>, ino: nat)
    requires Spent(v0, v, |c|) && WriteEffect(v, v', own', ino, piece, |c|) && |v'.inodes| == MAX_INODES == |v.inodes|
    requires ino != 0 && ino < MAX_INODES && |c| + |piece| <= MAX_FILE_SIZE && LiveSlots(v') == LiveSlots(v)
    requires |SpaceNeeded(v, ino, |c|, |piece|)| + Cost(BlocksFor(|c|)) == Cost(BlocksFor(|c| + |piece|))
    ensures Spent(v0, v', |c + piece|)
  {
    hide Mapping, OtherBlocks, NothingPast, ZeroTail, Contents, Overwrite, BitmapBlocks, SpaceNeeded, RangeMapped,
         Cost, BlocksFor, LiveSlots, DirFull;
  }

  lemma AppendStep(fs: FileTable, name: CString, c: seq<byte>, piece: seq<byte>, now: u64, fs': FileTable)
    requires name in fs && fs[name] == c && Step(fs, Store(name, piece, |c|, now), Done, fs')
    ensures fs' == fs[name := c + piece]
  {
    assert Overwrite(c, |c|, piece) == c + piece;
  }

  lemma AppendTable(fs: FileTable, name: Name, c: seq<byte>, c': seq<byte>)
    ensures fs[name := c][name := c'] == fs[name := c'] && name in fs[name := c] && fs[name := c][name] == c
    ensures name !in fs ==> fs[name := c] - {name} == fs
  {
  }

  /** When an append cannot be paid for, the file does not fit. */
  lemma GrowingBlocked(v0: Vol, v: Vol, own: Owners, k: nat, name: Name, ino: nat, c: seq<byte>, piece: seq<byte>,
                       v': Vol, own': Owners, size: nat)
    requires Growing(v0, v, own, k, name, ino, c) && OutOfSpace(v, v', own', name, piece, |c|)
    requires |c| + |piece| <= size
    ensures !RoomFor(v0, name, size)
  {
    hide *;
    var k', ino' := StuckFile(v, v', own', name, piece, |c|);
    GrowingFacts(v0, v, own, k, name, ino, c);
    EntryUnique(v, k, k', name, ino, ino');
    SoundOf(v, own);
    AppendDear(v, own, ino, |piece|);
    CostGrows(|c| + |piece|, size);
    TooDear(v0, v, name, |c|, size);
  }

  lemma TooDear(v0: Vol, v: Vol, name: Name, stored: nat, size: nat)
    requires Spent(v0, v, stored) && v.freeBlocks + Cost(BlocksFor(stored)) < Cost(BlocksFor(size))
    ensures !RoomFor(v0, name, size)
  {
    hide Cost, BlocksFor, DirFull, LiveSlots, Named, ValidName;
  }

  lemma AppendDear(v: Vol, own: Owners, ino: nat, len: nat)
    requires Sound(v, own) && |v.inodes| == MAX_INODES && 0 < ino < MAX_INODES && Full(v, ino)
    requires Unaffordable(v, ino, v.inodes[ino].size, len)
    ensures v.freeBlocks + Cost(BlocksFor(v.inodes[ino].size)) < Cost(BlocksFor(v.inodes[ino].size + len))
  {
    hide Sound, Full, SpaceNeeded, Cost, BlocksFor;
    AppendPrice(v, own, ino, len);
  }

  // ----------------------------------------------------- taking a torn file away

  /** Unlinking a file that ran out of space leaves a volume as good as before it was written. */
  lemma TornGone(v1: Vol, own1: Owners, v: Vol, own: Owners, k: nat, name: Name, ino: nat, src: seq<byte>,
                 offset: nat, done: nat, w: Vol, ownW: Owners, j: nat, k': nat)
    requires Ready(v1, own1) && EntryFor(v1, k, name, ino) && Torn(v1, v, own, ino, src, offset, done)
    requires UnlinkEffect(v, own, w, ownW, name, j, k') && Clean(w) && |v.inodes| == MAX_INODES && DirOk(v)
    ensures |v1.inodes| == MAX_INODES && DirOk(v1) && Ready(w, ownW) && DirOk(w) && name in Table(v)
    ensures Table(w) == Table(v) - {name}
  {
    hide *;
    ReadyFacts(v1, own1);
    TornFacts(v1, v, own, ino, src, offset, done);
    FileChangedShape(v1, v, own, ino);
    EntryStays(v1, own1, v, own, k, name, ino, ino);
    UnlinkEffectFacts(v, own, w, ownW, name, j, k');
    RemovedEntry(v, w, k', name, j);
    EntryUnique(v, k, k', name, ino, j);
    NotRoot(v1, own1, k, name, ino);
    RootNoFile(v1, own1);
    UnlinkTable(v, own, w, ownW, name, j, k');
    TornTails(v1, v, own, w, ino);
    ReadyIntro(w, ownW);
  }

  lemma RemovedEntry(v: Vol, w: Vol, k: nat, name: Name, ino: nat)
    requires Removed(v, w, k, name, ino)
    ensures EntryFor(v, k, name, ino)
  {
    hide EntryChanged, Live;
  }

  lemma NotRoot(v: Vol, own: Owners, k: nat, name: Name, ino: nat)
    requires Ready(v, own) && EntryFor(v, k, name, ino)
    ensures 0 < ino < MAX_INODES && |v.inodes| == MAX_INODES && IsFile(v, ino)
  {
    hide *;
    ReadyFacts(v, own);
    LookupMeaning(v, own, name, k, ino);
  }

  lemma RootNoFile(v: Vol, own: Owners)
    requires Consistent(v, own) && |v.inodes| == MAX_INODES
    ensures !IsFile(v, 0) && v.inodes[0].size == 0
  {
    hide Mapping, DirOk, FreeInodeSet;
    assert InodeShape(v.inodes[0], 0);
  }

  lemma TornTails(v1: Vol, v: Vol, own: Owners, w: Vol, ino: nat)
    requires |v1.inodes| == MAX_INODES == |v.inodes| == |w.inodes| && FileChanged(v1, v, own, ino)
    requires 0 < ino < MAX_INODES && w.inodes == v.inodes[ino := EmptyInode(FREE, 0)]
    requires forall s :: ValidSlot(s) && s.ino != ino ==> Ref(w, s) == Ref(v, s)
    requires forall i, l :: 0 < i < MAX_INODES && i != ino && 0 <= l < MAX_FILE_BLOCKS ==>
              Block(w, i, l) == Block(v, i, l)
    requires NothingPast(v1) && ZeroTail(v1) && !IsFile(v1, 0)
    ensures NothingPast(w) && ZeroTail(w)
  {
    hide Mapping, NothingPast, ZeroTail, Block, Ref;
    assert w.inodes == v1.inodes[ino := EmptyInode(FREE, 0)];
    UnlinkedTails(v1, w, ino);
  }

  // ------------------------------------------------------------- the upload itself

  lemma NoRoomFor(v: Vol, own: Owners, name: Name, size: nat)
    requires |v.inodes| == MAX_INODES && Consistent(v, own) && CreateRefused(v, name) != OK
    ensures !RoomFor(v, name, size)
  {
    hide Consistent, NoRoom, DirFull, Named, ValidName, Cost, BlocksFor;
    RoomForEntry(v, own);
  }

  lemma GrowingFits(v0: Vol, v: Vol, own: Owners, k: nat, name: Name, ino: nat, c: seq<byte>)
    requires Growing(v0, v, own, k, name, ino, c) && CreateRefused(v0, name) == OK
    ensures RoomFor(v0, name, |c|)
  {
    hide Ready, Full, EntryFor, Table, DirOk, Cost, BlocksFor, DirFull, LiveSlots, Named, ValidName, NoRoom;
    NotRoot(v, own, k, name, ino);
    ReadyFacts(v, own);
    FileSize(v, own, ino);
  }

  lemma TooLarge(v: Vol, name: Name, size: nat)
    requires size > MAX_FILE_SIZE
    ensures !RoomFor(v, name, size)
  {
    hide Named, ValidName, Cost, BlocksFor, DirFull;
  }

  lemma CreateAnswer(fs: FileTable, name: CString, now: u64, reply: Reply, fs': FileTable)
    requires Step(fs, Creat(name, now), reply, fs') && reply != Done
    ensures fs' == fs
  {
    hide ValidName;
  }

  lemma StoreAnswer(fs: FileTable, name: CString, src: seq<byte>, offset: nat, now: u64, reply: Reply, fs': FileTable)
    requires Step(fs, Store(name, src, offset, now), reply, fs') && name in fs && |src| <= INT_MAX && reply != Done
    ensures fs' == fs && offset + |src| > MAX_FILE_SIZE
  {
    hide Overwrite;
  }

  /** Removing what an interrupted upload has left: the table of files is again what it was. */
  method TakeAway(vol: DenyVolume, name: CString, ghost stuck: bool, ghost v0: Vol, ghost v: Vol, ghost ownV: Owners,
                  ghost k: nat, ghost ino: nat, ghost c: seq<byte>, ghost src: seq<byte>, ghost done: nat,
                  ghost k': nat, ghost ino': nat, ghost own: Owners)
    returns (ghost own': Owners)
    requires vol.Valid() && vol.Reliable() && Growing(v0, v, ownV, k, name, ino, c)
    requires |v.inodes| == MAX_INODES && DirOk(v) && |v0.inodes| == MAX_INODES && DirOk(v0)
    requires stuck ==> OutOfSpace(v, vol.View(), own, name, src, |c|) && EntryFor(v, k', name, ino')
                       && Torn(v, vol.View(), own, ino', src, |c|, done)
    requires !stuck ==> Ready(vol.View(), own) && |vol.View().inodes| == MAX_INODES && DirOk(vol.View())
                        && Table(vol.View()) == Table(v)
    modifies vol.Footprint()
    ensures vol.Valid() && Ready(vol.View(), own') && vol.View().foreign == old(vol.View()).foreign
    ensures |vol.View().inodes| == MAX_INODES && DirOk(vol.View()) && Table(vol.View()) == Table(v0)
  {
    hide *;
    ghost var u := vol.View();
    GrowingFacts(v0, v, ownV, k, name, ino, c);
    AppendTable(Table(v0), name, c, c);
    if stuck { OutOfSpaceFacts(v, u, own, name, src, |c|); } else { ReadyFacts(u, own); }
    LookupMeaning(u, own, name, 0, 0);
    var st;
    ghost var j, i;
    st, own', j, i := VolUnlink(vol, name, own);
    if stuck {
      TornGone(v, ownV, u, own, k', name, ino', src, |c|, done, vol.View(), own', j, i);
    } else {
      UnlinkDone(u, own, vol.View(), own', name, j, i);
    }
    ReadyFacts(vol.View(), own');
  }

  lemma OutOfSpaceFacts(v: Vol, v': Vol, own': Owners, name: Name, src: seq<byte>, offset: nat)
    requires OutOfSpace(v, v', own', name, src, offset)
    ensures |v.inodes| == MAX_INODES == |v'.inodes| && DirOk(v) && DirOk(v') && Consistent(v', own') && Clean(v')
    ensures name in Table(v') && Table(v') - {name} == Table(v) - {name}
  {
    hide Consistent, DirOk, Table, Unaffordable, Clean, EntryFor, StoppedShort;
  }

  /**
   * Uploading one file: it is created, its pieces are written one after the other, and it is unlinked
   * again if anything fails. The upload succeeds exactly if there is room for the file, and then the
   * file is there in full and survives reopening; otherwise no file has changed.
   */
  method UploadFile(vol: DenyVolume, name: CString, pieces: seq<seq<byte>>, now: u64, ghost own: Owners)
    returns (ok: bool, ghost own': Owners)
    requires vol.Valid() && vol.Reliable() && Ready(vol.View(), own)
    requires forall i :: 0 <= i < |pieces| ==> |pieces[i]| <= INT_MAX
    modifies vol.Footprint()
    ensures vol.Valid() && Ready(vol.View(), own') && vol.View().foreign == old(vol.View()).foreign
    ensures |old(vol.View()).inodes| == MAX_INODES && DirOk(old(vol.View())) && DirOk(vol.View())
    ensures ok <==> RoomFor(old(vol.View()), name, |Joined(pieces, |pieces|)|)
    ensures ok ==> Table(vol.View()) == Table(old(vol.View()))[name := Joined(pieces, |pieces|)]
    ensures ok ==> Spent(old(vol.View()), vol.View(), |Joined(pieces, |pieces|)|) && Durable(vol.View(), vol.mac)
    ensures !ok ==> Table(vol.View()) == Table(old(vol.View()))
  {
    hide *;
    ghost var v0 := vol.View();
    ReadyFacts(v0, own);
    var reply;
    ghost var ino, k;
    reply, own', ino, k := DoCreate(vol, name, now, own);
    if reply != Done {
      NoRoomFor(v0, own, name, |Joined(pieces, |pieces|)|);
      ReadyFacts(vol.View(), own');
      CreateAnswer(Table(v0), name, now, reply, Table(vol.View()));
      return false, own';
    }
    GrowingStart(v0, own, vol.View(), own', k, name, ino);
    Durability(vol.View(), own', vol.mac);
    JoinedNone(pieces);
    var i, offset := 0, 0;
    while i < |pieces|
      invariant i <= |pieces| && offset == |Joined(pieces, i)|
      invariant vol.Valid() && vol.View().foreign == v0.foreign && Durable(vol.View(), vol.mac)
      invariant Growing(v0, vol.View(), own', k, name, ino, Joined(pieces, i))
    {
      ghost var v, ownV, c := vol.View(), own', Joined(pieces, i);
      GrowingFacts(v0, v, ownV, k, name, ino, c);
      JoinedMore(pieces, i);
      AppendTable(Table(v0), name, c, c);
      var stuck;
      ghost var ino', k', done;
      reply, stuck, own', ino', k', done := DoWrite(vol, name, pieces[i], offset, now, own');
      if reply != Done {
        if stuck {
          GrowingBlocked(v0, v, ownV, k, name, ino, c, pieces[i], vol.View(), own', |Joined(pieces, |pieces|)|);
        } else {
          ReadyFacts(vol.View(), own');
          StoreAnswer(Table(v), name, pieces[i], offset, now, reply, Table(vol.View()));
          TooLarge(v0, name, |Joined(pieces, |pieces|)|);
        }
        own' := TakeAway(vol, name, stuck, v0, v, ownV, k, ino, c, pieces[i], done, k', ino', own');
        return false, own';
      }
      ReadyFacts(vol.View(), own');
      GrowingMore(v0, v, ownV, k, name, ino, c, pieces[i], vol.View(), own', k', ino', now);
      Durability(vol.View(), own', vol.mac);
      i, offset := i + 1, offset + |pieces[i]|;
    }
    GrowingFacts(v0, vol.View(), own', k, name, ino, Joined(pieces, |pieces|));
    GrowingFits(v0, vol.View(), own', k, name, ino, Joined(pieces, |pieces|));
    ok := true;
  }

  lemma JoinedNone(pieces: seq<seq<byte>>)
    ensures Joined(pieces, 0) == []
  {
  }

  lemma JoinedMore(pieces: seq<seq<byte>>, i: nat)
    requires i < |pieces|
    ensures Joined(pieces, i + 1) == Joined(pieces, i) + pieces[i]
    ensures |Joined(pieces, i)| + |pieces[i]| <= |Joined(pieces, |pieces|)|
  {
    JoinedLength(pieces, i + 1, |pieces|);
  }

  // --------------------------------------------------------------- all the files

  /** A file to upload, in the pieces in which its bytes arrive. */
  datatype Item = Item(name: CString, pieces: seq<seq<byte>>)
  {
    function Bytes(): (c: seq<byte>)
    {
      Joined(pieces, |pieces|)
    }
  }

  /** The table of files that the first n uploads add up to. */
  ghost function TableOf(items: seq<Item>, n: nat): (fs: FileTable)
    requires n <= |items|
  {
    if n == 0 then map[] else TableOf(items, n - 1)[items[n - 1].name := items[n - 1].Bytes()]
  }

  /** What the first n files cost, tables included. */
  function FilesCost(items: seq<Item>, n: nat): (c: nat)
    requires n <= |items|
  {
    if n == 0 then 0 else FilesCost(items, n - 1) + Cost(BlocksFor(|items[n - 1].Bytes()|))
  }

  /** The blocks of a directory to which n files were added. */
  function DirBlocks(n: nat): (b: nat)
  {
    if n == 0 then 1 else (n + DIRENTS_PER_BLOCK - 1) / DIRENTS_PER_BLOCK
  }

  /** The first n files fit a fresh volume with `room` data blocks. */
  ghost predicate AllFit(items: seq<Item>, n: nat, room: nat)
    requires n <= |items|
  {
    && n < MAX_INODES
    && (forall i :: 0 <= i < n ==> ValidName(items[i].name) && |items[i].Bytes()| <= MAX_FILE_SIZE)
    && (forall i, j :: 0 <= i < j < n ==> items[i].name != items[j].name)
    && DirBlocks(n) + FilesCost(items, n) <= room
  }

  /** A volume with `room` data blocks onto which exactly the first n files were uploaded. */
  ghost predicate Stage(v: Vol, items: seq<Item>, n: nat, room: nat)
  {
    && |v.inodes| == MAX_INODES && DirOk(v) && n <= |items|
    && Table(v) == TableOf(items, n)
    && v.freeInodes + n == MAX_INODES - 1 && |LiveSlots(v)| == n
    && v.inodes[0].blockCount == DirBlocks(n) && v.freeBlocks + DirBlocks(n) + FilesCost(items, n) == room
  }

  /** With n entries in use the directory is full exactly when they are a positive multiple of 16. */
  lemma FullByCount(v: Vol, own: Owners, n: nat)
    requires Ready(v, own) && |v.inodes| == MAX_INODES && |LiveSlots(v)| == n < MAX_INODES
    requires v.inodes[0].blockCount == DirBlocks(n)
    ensures DirBlocks(n + 1) == DirBlocks(n) + EntryCost(v)
  {
    hide Ready, LiveSlots, DirFull;
    FullCount(v);
    DirGrows(n);
  }

  lemma DirGrows(n: nat)
    ensures DirBlocks(n + 1) == DirBlocks(n) + (if n == DIRENTS_PER_BLOCK * DirBlocks(n) then 1 else 0)
    ensures n < MAX_INODES ==> DirBlocks(n) <= 4
  {
  }

  lemma FullCount(v: Vol)
    requires |v.inodes| == MAX_INODES && v.inodes[0].blockCount <= DIRECT_BLOCKS
    ensures DirFull(v) <==> |LiveSlots(v)| == DIRENTS_PER_BLOCK * v.inodes[0].blockCount
  {
    hide LiveSlots, DirFull;
    var slots := DIRENTS_PER_BLOCK * v.inodes[0].blockCount;
    LiveWithin(v, slots);
    if |LiveSlots(v)| == slots {
      SubsetOfSameSize(LiveSlots(v), Interval(0, slots));
      AllLive(v, slots);
    } else if DirFull(v) {
      FullLive(v, slots);
    }
  }

  lemma LiveWithin(v: Vol, slots: nat)
    requires |v.inodes| == MAX_INODES && DirSlots(v) == slots
    ensures LiveSlots(v) <= Interval(0, slots)
  {
    hide EntryAt, Interval;
  }

  lemma AllLive(v: Vol, slots: nat)
    requires |v.inodes| == MAX_INODES && DirSlots(v) == slots && LiveSlots(v) == Interval(0, slots)
    ensures DirFull(v)
  {
    hide Live, Interval;
    forall k: nat | k < slots && k < DIRENTS_PER_BLOCK * DIRECT_BLOCKS
      ensures Live(v, k)
    {
      assert k in LiveSlots(v);
    }
  }

  lemma FullLive(v: Vol, slots: nat)
    requires |v.inodes| == MAX_INODES && DirSlots(v) == slots <= DIRENTS_PER_BLOCK * DIRECT_BLOCKS && DirFull(v)
    ensures |LiveSlots(v)| == slots
  {
    hide Live, Interval;
    LiveWithin(v, slots);
    assert LiveSlots(v) == Interval(0, slots);
  }

  lemma {:induction false} TableOfNames(items: seq<Item>, n: nat, name: Name)
    requires n <= |items|
    ensures name in TableOf(items, n) <==> exists j :: 0 <= j < n && items[j].name == name
    decreases n
  {
    if n > 0 { TableOfNames(items, n - 1, name); }
  }

  lemma {:induction false} FilesCostGrows(items: seq<Item>, m: nat, n: nat)
    requires m <= n <= |items|
    ensures FilesCost(items, m) <= FilesCost(items, n)
    decreases n
  {
    if m < n { FilesCostGrows(items, m, n - 1); }
  }

  /** Files that fit all together fit as far as they go. */
  lemma AllFitPrefix(items: seq<Item>, m: nat, n: nat, room: nat)
    requires m <= n <= |items| && AllFit(items, n, room)
    ensures AllFit(items, m, room)
  {
    hide ValidName;
    FilesCostGrows(items, m, n);
  }

  lemma AllFitNext(items: seq<Item>, n: nat, room: nat)
    requires n < |items| && AllFit(items, n, room)
    ensures AllFit(items, n + 1, room) <==>
            && n + 1 < MAX_INODES && ValidName(items[n].name) && |items[n].Bytes()| <= MAX_FILE_SIZE
            && (forall i :: 0 <= i < n ==> items[i].name != items[n].name)
            && DirBlocks(n + 1) + FilesCost(items, n) + Cost(BlocksFor(|items[n].Bytes()|)) <= room
  {
    hide ValidName, Cost, BlocksFor, DirBlocks, Item.Bytes;
    assert FilesCost(items, n + 1) == FilesCost(items, n) + Cost(BlocksFor(|items[n].Bytes()|));
  }

  /** There is room for the next file exactly if it fits together with those already there. */
  lemma NextFits(v: Vol, own: Owners, items: seq<Item>, n: nat, room: nat)
    requires Ready(v, own) && Stage(v, items, n, room) && n < |items| && AllFit(items, n, room)
    ensures RoomFor(v, items[n].name, |items[n].Bytes()|) <==> AllFit(items, n + 1, room)
  {
    hide Ready, ValidName, Cost, BlocksFor, DirFull, LiveSlots, Table, DirOk, Named, DirBlocks, Item.Bytes, AllFit,
         TableOf, FilesCost;
    ReadyFacts(v, own);
    LookupMeaning(v, own, items[n].name, 0, 0);
    TableOfNames(items, n, items[n].name);
    FullByCount(v, own, n);
    AllFitNext(items, n, room);
  }

  lemma StageNext(v: Vol, own: Owners, items: seq<Item>, n: nat, room: nat, v': Vol, own': Owners)
    requires Ready(v, own) && Stage(v, items, n, room) && n < |items| && AllFit(items, n, room)
    requires Ready(v', own') && |v'.inodes| == MAX_INODES && DirOk(v') && |v.inodes| == MAX_INODES && DirOk(v)
    requires Table(v') == Table(v)[items[n].name := items[n].Bytes()] && Spent(v, v', |items[n].Bytes()|)
    ensures Stage(v', items, n + 1, room)
  {
    hide Ready, ValidName, Cost, BlocksFor, DirFull, LiveSlots, Table, DirOk, Named, DirBlocks, Item.Bytes;
    FullByCount(v, own, n);
    assert FilesCost(items, n + 1) == FilesCost(items, n) + Cost(BlocksFor(|items[n].Bytes()|));
  }

  /**
   * Uploading files to a fresh volume, until one is refused. All of them are stored exactly if they
   * fit at their full cost; in any case those before the refused one are there in full, and no others.
   */
  method Upload(vol: DenyVolume, items: seq<Item>, now: u64, ghost own: Owners, ghost room: nat)
    returns (n: nat, ghost own': Owners)
    requires vol.Valid() && vol.Reliable() && Ready(vol.View(), own) && Stage(vol.View(), items, 0, room)
    requires forall i, j :: 0 <= i < |items| && 0 <= j < |items[i].pieces| ==> |items[i].pieces[j]| <= INT_MAX
    requires room > 0
    modifies vol.Footprint()
    ensures vol.Valid() && Ready(vol.View(), own') && vol.View().foreign == old(vol.View()).foreign
    ensures n <= |items| && AllFit(items, n, room)
    ensures n == |items| <==> AllFit(items, |items|, room)
    ensures n < |items| ==> !AllFit(items, n + 1, room)
    ensures |vol.View().inodes| == MAX_INODES && DirOk(vol.View()) && Table(vol.View()) == TableOf(items, n)
    ensures n > 0 && n == |items| ==> Durable(vol.View(), vol.mac)
  {
    hide *;
    own', n := own, 0;
    FitNone(items, room);
    ReadyFacts(vol.View(), own');
    StageFacts(vol.View(), items, 0, room);
    while n < |items|
      invariant n <= |items| && AllFit(items, n, room)
      invariant vol.Valid() && Ready(vol.View(), own') && vol.View().foreign == old(vol.View()).foreign
      invariant |vol.View().inodes| == MAX_INODES && DirOk(vol.View()) && Stage(vol.View(), items, n, room)
                && Table(vol.View()) == TableOf(items, n)
      invariant n > 0 ==> Durable(vol.View(), vol.mac)
    {
      ghost var v, ownV := vol.View(), own';
      NextFits(v, ownV, items, n, room);
      BytesOf(items[n]);
      var ok;
      ok, own' := UploadFile(vol, items[n].name, items[n].pieces, now, own');
      if !ok {
        ReadyFacts(vol.View(), own');
        if AllFit(items, |items|, room) { AllFitPrefix(items, n + 1, |items|, room); }
        return;
      }
      ReadyFacts(vol.View(), own');
      StageNext(v, ownV, items, n, room, vol.View(), own');
      StageFacts(vol.View(), items, n + 1, room);
      n := n + 1;
    }
  }

  lemma FitNone(items: seq<Item>, room: nat)
    requires room > 0
    ensures AllFit(items, 0, room)
  {
  }

  lemma StageFacts(v: Vol, items: seq<Item>, n: nat, room: nat)
    requires Stage(v, items, n, room)
    ensures |v.inodes| == MAX_INODES && DirOk(v) && n <= |items| && Table(v) == TableOf(items, n)
  {
    hide DirOk, Table, TableOf;
  }

  lemma BytesOf(item: Item)
    ensures item.Bytes() == Joined(item.pieces, |item.pieces|)
  {
  }

  // ------------------------------------------------ what the dashboard's check promises

  /** The data blocks of a volume of `total` blocks. */
  function DataBlocks(total: nat): (n: nat)
  {
    if 3 + BitmapBlocks(total) <= total then total - (3 + BitmapBlocks(total)) else 0
  }

  /** A formatted volume is where an upload starts. */
  lemma FreshStage(disk: seq<Sector>, mac: seq<Sector> -> Mac, now: u64, foreign: map<nat, Sector>, items: seq<Item>)
    requires IsFormatted(disk, mac, now)
    ensures 3 + BitmapBlocks(|disk|) < |disk| <= INT32_LIMIT
    ensures var v := Formatted(disk, now, foreign);
            Ready(v, FormatOwners(|disk|)) && Stage(v, items, 0, DataBlocks(|disk|)) && DataBlocks(|disk|) > 0
  {
    hide Ready, Durable, FormatOwners, BitmapBlocks, DirOk, Table, FormatBits, FormatNodes, Live, IsFormatted,
         EmptyDirBlock;
    FormattedReady(disk, mac, now, foreign);
    OnDiskAnywhere(disk, mac, now, foreign);
    FormattedDirectory(disk, now, foreign);
    assert LiveSlots(Formatted(disk, now, foreign)) == {};
  }

  /** The names and sizes of the files to upload. */
  function Described(items: seq<Item>): (files: FileList)
    ensures |files| == |items|
  {
    seq(|items|, i requires 0 <= i < |items| => (items[i].name, |items[i].Bytes()|))
  }

  lemma SafeIsValid(name: Name)
    requires SafeName(name)
    ensures ValidName(name)
  {
  }

  lemma {:induction false} CostBound(items: seq<Item>, n: nat)
    requires n <= |items|
    ensures TABLE_BYTES * FilesCost(items, n) <= 1025 * TotalBytes(Described(items), n) + FILE_SLACK * n
    decreases n
  {
    hide Cost, BlocksFor, Item.Bytes;
    if n > 0 {
      CostBound(items, n - 1);
      FileCost(|items[n - 1].Bytes()|);
    }
  }

  lemma AcceptedNames(items: seq<Item>)
    requires NamesSafe(Described(items), |items|) && NamesDistinct(Described(items), |items|)
    requires SizesAllowed(Described(items), |items|)
    ensures forall i :: 0 <= i < |items| ==> ValidName(items[i].name) && |items[i].Bytes()| <= MAX_FILE_SIZE
    ensures forall i, j :: 0 <= i < j < |items| ==> items[i].name != items[j].name
  {
    hide Item.Bytes, SafeName, ValidName;
    var files := Described(items);
    forall i | 0 <= i < |items|
      ensures ValidName(items[i].name) && |items[i].Bytes()| <= MAX_FILE_SIZE
    {
      assert files[i].0 == items[i].name && files[i].1 == |items[i].Bytes()|;
      SafeIsValid(items[i].name);
    }
    assert forall i :: 0 <= i < |items| ==> files[i].0 == items[i].name;
  }

  lemma AcceptedCost(items: seq<Item>, total: nat)
    requires |items| < MAX_INODES && Precheck(TotalBytes(Described(items), |items|), total * SECTOR_SIZE)
    requires TotalBytes(Described(items), |items|) <= MAX_FILE_SIZE
    ensures DirBlocks(|items|) + FilesCost(items, |items|) <= DataBlocks(total)
  {
    hide Precheck, TotalBytes, FilesCost, DirBlocks, BitmapBlocks, Described;
    CostBound(items, |items|);
    DirGrows(|items|);
    PrecheckArithmetic(total, TotalBytes(Described(items), |items|), DirBlocks(|items|) + FilesCost(items, |items|));
  }

  /** An upload of at most 4 GiB that the dashboard accepts fits a fresh volume of that size, directory and all. */
  lemma AcceptedFits(items: seq<Item>, total: nat)
    requires Accepted(Described(items), total * SECTOR_SIZE)
    requires TotalBytes(Described(items), |items|) <= MAX_FILE_SIZE
    ensures AllFit(items, |items|, DataBlocks(total))
  {
    hide Precheck, TotalBytes, FilesCost, DirBlocks, DataBlocks, Item.Bytes, SafeName, ValidName;
    AcceptedNames(items);
    AcceptedCost(items, total);
  }

  /** Past 4 GiB it need not: 4 GiB and 1 GiB are accepted for a 10250 MiB container and do not fit it. */
  lemma AcceptedTooMuch(items: seq<Item>)
    requires |items| == 2 && items[0].name != items[1].name && SafeName(items[0].name) && SafeName(items[1].name)
    requires |items[0].Bytes()| == 4 * 1024 * MIB && |items[1].Bytes()| == 1024 * MIB
    ensures Accepted(Described(items), 10250 * MIB / 2) && 10250 * MIB / 2 == 1312000 * SECTOR_SIZE
    ensures !AllFit(items, 2, DataBlocks(1312000))
  {
    hide SafeName, Item.Bytes;
    var files := Described(items);
    assert TotalBytes(files, 0) == 0 && TotalBytes(files, 1) == 4 * 1024 * MIB;
    assert TotalBytes(files, 2) == 5 * 1024 * MIB;
    assert FilesCost(items, 0) == 0 && FilesCost(items, 1) == 1049601;
    assert FilesCost(items, 2) == 1049601 + 262401;
  }
}
