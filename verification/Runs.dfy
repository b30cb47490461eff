/** Whole runs: a mounted volume behaves like a map from names to byte strings. */
module Runs {
  import opened Base
  import opened Codec
  import opened FileMap
  import opened Ownership
  import opened Growth
  import opened Files
  import opened Bytes
  import opened FileSystem
  import opened FileOps
  import opened Persist
  import opened Volume
  import opened Access
  import opened Resizing
  import opened Directory
  import opened Dirents
  import opened Create
  import opened Open
  import opened Format
  import opened Unlink

  /** A call by file name: the name is looked up first, and a failed lookup answers ENOENT, as in the FUSE layer. */
  datatype Op =
    | Creat(name: CString, now: u64)
    | Remove(name: CString)
    | Store(name: CString, src: seq<byte>, offset: nat, now: u64)
    | Cut(name: CString, size: nat, now: u64)
    | Fetch(name: CString, len: nat, offset: nat)
    | List

  datatype Reply = Done | Bytes(data: seq<byte>) | Entries(list: seq<Entry>) | Error(st: Status)

  /** What a call may answer and how it changes the table of files. */
  ghost predicate Step(fs: FileTable, op: Op, reply: Reply, fs': FileTable)
  {
    match op
    case Creat(name, _) =>
      if !ValidName(name) then reply == Error(EINVAL) && fs' == fs
      else if name in fs then reply == Error(EEXIST) && fs' == fs
      else (reply == Done && fs' == fs[name := []]) || (reply == Error(ENOSPC) && fs' == fs)
    case Remove(name) =>
      if name in fs then reply == Done && fs' == fs - {name} else reply == Error(ENOENT) && fs' == fs
    case Store(name, src, offset, _) =>
      if name !in fs then reply == Error(ENOENT) && fs' == fs
      else if |src| > INT_MAX then reply == Error(EINVAL) && fs' == fs
      else if offset + |src| > MAX_FILE_SIZE then reply == Error(ENOSPC) && fs' == fs
      else reply == Done && fs' == fs[name := Overwrite(fs[name], offset, src)]
    case Cut(name, size, _) =>
      if size > MAX_FILE_SIZE then reply == Error(ENOSPC) && fs' == fs
      else if name !in fs then reply == Error(ENOENT) && fs' == fs
      else reply == Done && fs' == fs[name := Resize(fs[name], size)]
    case Fetch(name, len, offset) =>
      && fs' == fs
      && (if name !in fs then reply == Error(ENOENT)
          else if len > INT_MAX then reply == Error(EINVAL)
          else reply == Bytes(Slice(fs[name], offset, len)))
    case List =>
      fs' == fs && reply.Entries? && ListsNames(reply.list, fs)
  }

  /** Every name once. */
  ghost predicate ListsNames(l: seq<Entry>, fs: FileTable)
  {
    && (forall j :: 0 <= j < |l| ==> l[j].0 in fs)
    && (forall i, j :: 0 <= i < j < |l| ==> l[i].0 != l[j].0)
    && (forall name :: name in fs ==> exists j :: 0 <= j < |l| && l[j].0 == name)
  }

  /** The invariant between calls. */
  ghost predicate Ready(v: Vol, own: Owners)
  {
    |v.inodes| == MAX_INODES && Good(v, own) && Clean(v)
  }

  /** The root directory has at most 4 blocks, as it has on every volume that started out formatted. */
  ghost predicate RootCompact(v: Vol)
  {
    |v.inodes| == MAX_INODES && v.inodes[0].blockCount <= 4
  }

  lemma ReadyFacts(v: Vol, own: Owners)
    requires Ready(v, own)
    ensures |v.inodes| == MAX_INODES && Consistent(v, own) && Clean(v) && DirOk(v) && NothingPast(v) && ZeroTail(v)
            && Shape(v)
    ensures v.inodes[0].size == 0
  {
    hide Mapping, DirOk, NothingPast, ZeroTail, FreeInodeSet, Clean;
    ConsistentMapping(v, own);
    RootShape(v.inodes[0]);
  }

  lemma ReadyIntro(v: Vol, own: Owners)
    requires |v.inodes| == MAX_INODES && Consistent(v, own) && Clean(v) && NothingPast(v) && ZeroTail(v)
    ensures Ready(v, own)
  {
    hide Consistent, NothingPast, ZeroTail, Clean;
  }

  /** The name under which a directory entry lists a file is the file's name. */
  lemma NameOfFile(v: Vol, k: nat, name: Name, ino: nat)
    requires |v.inodes| == MAX_INODES && DirOk(v) && EntryFor(v, k, name, ino)
    ensures Listed(v, ino) && FileName(v, ino) == name && ino < MAX_INODES && IsFile(v, ino)
  {
    hide EntryAt;
  }

  // ------------------------------------------------------------- create, unlink

  method DoCreate(vol: DenyVolume, name: CString, now: u64, ghost own: Owners)
    returns (reply: Reply, ghost own': Owners, ghost ino: nat, ghost k: nat)
    requires vol.Valid() && vol.Reliable() && Ready(vol.View(), own)
    modifies vol.Footprint()
    ensures vol.Valid() && Ready(vol.View(), own') && vol.View().foreign == old(vol.View()).foreign
    ensures |old(vol.View()).inodes| == MAX_INODES && DirOk(old(vol.View())) && DirOk(vol.View())
    ensures RootCompact(old(vol.View())) ==> RootCompact(vol.View())
    ensures reply == Done ==> OnDisk(vol.View(), vol.mac)
    ensures reply == Done <==> CreateRefused(old(vol.View()), name) == OK
    ensures reply == Done ==> CreateEffect(old(vol.View()), vol.View(), own', name, ino, k)
    ensures Step(Table(old(vol.View())), Creat(name, now), reply, Table(vol.View()))
  {
    hide *;
    ghost var v := vol.View();
    ReadyFacts(v, own);
    var st, i;
    st, i, own', k := VolCreate(vol, name, now, own);
    ino := i;
    reply := if st == OK then Done else Error(st);
    if st == OK {
      CreateDone(v, own, vol.View(), own', name, now, ino, k);
    } else {
      own' := own;
      CreateFailed(v, own, vol.View(), name, now);
    }
  }

  lemma CreateDone(v: Vol, own: Owners, v': Vol, own': Owners, name: CString, now: u64, ino: nat, k: nat)
    requires Ready(v, own) && CreateEffect(v, v', own', name, ino, k) && Clean(v')
    requires |v.inodes| == MAX_INODES && DirOk(v)
    ensures Ready(v', own') && DirOk(v') && Step(Table(v), Creat(name, now), Done, Table(v'))
    ensures RootCompact(v) ==> RootCompact(v')
  {
    hide *;
    ReadyFacts(v, own);
    CreateTable(v, v', own', name, ino, k);
    SmallAfterCreate(v, own, v', own', name, ino, k);
    CreateEffectFacts(v, v', own', name, ino, k);
    CreateGood(v, v', own', name, ino, k);
    ReadyIntro(v', own');
    CreateStep(Table(v), name, now, Table(v'));
  }

  lemma SmallAfterCreate(v: Vol, own: Owners, v': Vol, own': Owners, name: Name, ino: nat, k: nat)
    requires |v.inodes| == MAX_INODES && Consistent(v, own) && CreateEffect(v, v', own', name, ino, k)
    ensures RootCompact(v) ==> RootCompact(v')
  {
    hide Consistent, CreateEffect;
    if RootCompact(v) { RootStaysSmall(v, own, v', own', name, ino, k); }
  }

  /** The root directory's inode is the same. */
  lemma SmallAgain(v: Vol, v': Vol)
    requires |v.inodes| == MAX_INODES == |v'.inodes| && v'.inodes[0] == v.inodes[0]
    ensures RootCompact(v) ==> RootCompact(v')
  {
  }

  lemma CreateGood(v: Vol, v': Vol, own': Owners, name: Name, ino: nat, k: nat)
    requires CreateEffect(v, v', own', name, ino, k) && |v.inodes| == MAX_INODES == |v'.inodes| && NothingPast(v)
             && ZeroTail(v)
    ensures NothingPast(v') && ZeroTail(v') && ValidName(name)
  {
    hide Consistent, NothingPast, ZeroTail, OtherBlocks, EntryChanged, Live, Named, DirFull, BitmapBlocks;
  }

  lemma CreateStep(fs: FileTable, name: CString, now: u64, fs': FileTable)
    requires ValidName(name) && name !in fs && fs' == fs[name := []]
    ensures Step(fs, Creat(name, now), Done, fs')
  {
    hide ValidName;
  }

  lemma CreateFailed(v: Vol, own: Owners, v': Vol, name: CString, now: u64)
    requires Ready(v, own) && CreateUndone(v, v', now) && Clean(v') && |v.inodes| == MAX_INODES && DirOk(v)
    requires CreateRefused(v, name) != OK
    ensures Ready(v', own) && DirOk(v') && Step(Table(v), Creat(name, now), Error(CreateRefused(v, name)), Table(v'))
    ensures RootCompact(v) ==> RootCompact(v')
  {
    hide *;
    ReadyFacts(v, own);
    UndoneMeaning(v, own, v', now);
    SmallAgain(v, v');
    ConsistentDirectory(v', own);
    ReadyIntro(v', own);
    LookupMeaning(v, own, name, 0, 0);
    CreateErrors(v, name);
    CreateErrorStep(Table(v), name, now, CreateRefused(v, name));
  }

  lemma CreateErrors(v: Vol, name: Name)
    requires |v.inodes| == MAX_INODES && CreateRefused(v, name) != OK
    ensures CreateRefused(v, name) == if !ValidName(name) then EINVAL else if Named(v, name) then EEXIST else ENOSPC
  {
    hide ValidName, Named, NoRoom;
  }

  lemma CreateErrorStep(fs: FileTable, name: CString, now: u64, st: Status)
    requires st == if !ValidName(name) then EINVAL else if name in fs then EEXIST else ENOSPC
    ensures Step(fs, Creat(name, now), Error(st), fs)
  {
    hide ValidName;
  }

  method DoUnlink(vol: DenyVolume, name: CString, ghost own: Owners) returns (reply: Reply, ghost own': Owners)
    requires vol.Valid() && vol.Reliable() && Ready(vol.View(), own)
    modifies vol.Footprint()
    ensures vol.Valid() && Ready(vol.View(), own') && vol.View().foreign == old(vol.View()).foreign
    ensures |old(vol.View()).inodes| == MAX_INODES && DirOk(old(vol.View())) && DirOk(vol.View())
    ensures RootCompact(old(vol.View())) ==> RootCompact(vol.View())
    ensures reply == Done ==> OnDisk(vol.View(), vol.mac) || vol.View() == old(vol.View())
    ensures Step(Table(old(vol.View())), Remove(name), reply, Table(vol.View()))
  {
    hide *;
    ghost var v := vol.View();
    ReadyFacts(v, own);
    LookupMeaning(v, own, name, 0, 0);
    UnlinkSteps(Table(v), name);
    var st;
    ghost var ino, k;
    st, own', ino, k := VolUnlink(vol, name, own);
    reply := if st == OK then Done else Error(st);
    if st == OK {
      UnlinkDone(v, own, vol.View(), own', name, ino, k);
    } else {
      own' := own;
    }
  }

  lemma UnlinkSteps(fs: FileTable, name: CString)
    ensures name !in fs ==> Step(fs, Remove(name), Error(ENOENT), fs)
    ensures name in fs ==> Step(fs, Remove(name), Done, fs - {name})
  {
  }

  lemma UnlinkDone(v: Vol, own: Owners, v': Vol, own': Owners, name: Name, ino: nat, k: nat)
    requires Ready(v, own) && UnlinkEffect(v, own, v', own', name, ino, k) && Clean(v') && |v.inodes| == MAX_INODES
             && DirOk(v)
    ensures Ready(v', own') && DirOk(v') && name in Table(v) && Table(v') == Table(v) - {name}
    ensures RootCompact(v) ==> RootCompact(v')
  {
    hide *;
    ReadyFacts(v, own);
    UnlinkTable(v, own, v', own', name, ino, k);
    UnlinkEffectFacts(v, own, v', own', name, ino, k);
    SmallAgain(v, v');
    ReadyIntro(v', own');
  }

  // --------------------------------------------------------------- by file name

  /** A lookup that fails, on a host that does not. */
  lemma LookupFailed(v: Vol, own: Owners, name: CString, st: Status)
    requires |v.inodes| == MAX_INODES && DirOk(v) && Consistent(v, own)
    requires st == EINVAL <==> |name| == 0 || |name| >= MAX_NAME_LEN
    requires st == ENOENT ==> !Named(v, name)
    requires st == EINVAL || st == ENOENT
    ensures name !in Table(v)
  {
    hide Consistent, Table, DirOk, Named;
    LookupMeaning(v, own, name, 0, 0);
    if Named(v, name) { NameTooLong(v, own, name); }
  }

  /** A write ran out of space on the way: it has stored all that could be paid for, and nothing else has changed. */
  ghost predicate OutOfSpace(v: Vol, v': Vol, own': Owners, name: Name, src: seq<byte>, offset: nat)
  {
    && |v.inodes| == MAX_INODES == |v'.inodes| && DirOk(v) && DirOk(v') && Consistent(v', own') && Clean(v')
    && name in Table(v) && name in Table(v') && Table(v') - {name} == Table(v) - {name}
    && exists k, ino :: EntryFor(v, k, name, ino) && Unaffordable(v, ino, offset, |src|)
                        && StoppedShort(v, v', own', ino, src, offset)
  }

  ghost predicate StoppedShort(v: Vol, v': Vol, own': Owners, ino: nat, src: seq<byte>, offset: nat)
  {
    exists done :: OutOfRoom(v, v', own', ino, src, offset, done)
  }

  /** The file that ran out of space. */
  lemma StuckFile(v: Vol, v': Vol, own': Owners, name: Name, src: seq<byte>, offset: nat) returns (k: nat, ino: nat)
    requires OutOfSpace(v, v', own', name, src, offset)
    ensures EntryFor(v, k, name, ino) && Unaffordable(v, ino, offset, |src|)
            && StoppedShort(v, v', own', ino, src, offset)
  {
    hide Consistent, DirOk, Table, Unaffordable, Clean, EntryFor, StoppedShort;
    k, ino :| EntryFor(v, k, name, ino) && Unaffordable(v, ino, offset, |src|)
              && StoppedShort(v, v', own', ino, src, offset);
  }

  /** The blocks that a write needs are more than there are free ones. */
  ghost predicate Unaffordable(v: Vol, ino: nat, offset: nat, len: nat)
  {
    |v.inodes| == MAX_INODES && ino < MAX_INODES && offset + len <= MAX_FILE_SIZE
        && v.freeBlocks < |SpaceNeeded(v, ino, offset, len)|
  }

  method DoWrite(vol: DenyVolume, name: CString, src: seq<byte>, offset: nat, now: u64, ghost own: Owners)
    returns (reply: Reply, stuck: bool, ghost own': Owners, ghost ino: nat, ghost k: nat, ghost done: nat)
    requires vol.Valid() && vol.Reliable() && Ready(vol.View(), own)
    modifies vol.Footprint()
    ensures vol.Valid() && vol.View().foreign == old(vol.View()).foreign
    ensures |old(vol.View()).inodes| == MAX_INODES && DirOk(old(vol.View()))
    ensures !stuck && reply == Done ==> OnDisk(vol.View(), vol.mac)
    ensures name in Table(old(vol.View())) ==> EntryFor(old(vol.View()), k, name, ino) && ino < MAX_INODES
    ensures !stuck && reply == Done ==> WriteEffect(old(vol.View()), vol.View(), own', ino, src, offset)
    ensures stuck ==> Torn(old(vol.View()), vol.View(), own', ino, src, offset, done)
    ensures !stuck ==> Ready(vol.View(), own') && DirOk(vol.View())
    ensures !stuck && RootCompact(old(vol.View())) ==> RootCompact(vol.View())
    ensures !stuck ==> Step(Table(old(vol.View())), Store(name, src, offset, now), reply, Table(vol.View()))
    ensures stuck ==> OutOfSpace(old(vol.View()), vol.View(), own', name, src, offset) && reply == Error(ENOSPC)
  {
    hide *;
    ghost var v := vol.View();
    ReadyFacts(v, own);
    ReliableNotFaulty(vol);
    own', stuck, done := own, false, 0;
    var st, i;
    st, i, k := VolLookup(vol, name, own);
    ino := i;
    if st != OK {
      LookupFailed(v, own, name, st);
      MissingStep(Table(v), name, src, offset, now);
      reply := Error(ENOENT);
      return;
    }
    LookupMeaning(v, own, name, k, ino);
    var n;
    st, n, own', done := VolWrite(vol, i, src, offset, now, own);
    reply := if st == OK then Done else Error(st);
    WriteCases(v, ino, |src|, offset);
    stuck := st == ENOSPC && |src| <= INT_MAX && offset + |src| <= MAX_FILE_SIZE;
    if WriteRefused(v, ino, |src|, offset) == OK { OutcomeFacts(v, vol.View(), own', ino, src, offset, done, st); }
    if stuck {
      WriteStuck(v, own, vol.View(), own', k, name, ino, src, offset, done);
    } else if st == OK {
      WriteGood(v, own, vol.View(), own', k, name, ino, src, offset, now);
    } else {
      RefusedStep(Table(v), name, src, offset, now);
    }
  }

  lemma MissingStep(fs: FileTable, name: CString, src: seq<byte>, offset: nat, now: u64)
    requires name !in fs
    ensures Step(fs, Store(name, src, offset, now), Error(ENOENT), fs)
  {
  }

  lemma RefusedStep(fs: FileTable, name: CString, src: seq<byte>, offset: nat, now: u64)
    requires name in fs && (|src| > INT_MAX || offset + |src| > MAX_FILE_SIZE)
    ensures Step(fs, Store(name, src, offset, now), Error(if |src| > INT_MAX then EINVAL else ENOSPC), fs)
  {
  }

  lemma WriteCases(v: Vol, ino: nat, len: nat, offset: nat)
    requires |v.inodes| == MAX_INODES && IsFile(v, ino)
    ensures WriteRefused(v, ino, len,
            offset) == if len > INT_MAX then EINVAL else if offset + len > MAX_FILE_SIZE then ENOSPC else OK
    ensures ino < MAX_INODES
  {
  }

  lemma OutcomeFacts(v0: Vol, v: Vol, own: Owners, ino: nat, src: seq<byte>, offset: nat, done: nat, st: Status)
    requires WriteOutcome(v0, v, own, ino, src, offset, done, st)
    ensures |v0.inodes| == MAX_INODES && ino < MAX_INODES && offset + |src| <= MAX_FILE_SIZE
            && (st == OK || st == ENOSPC)
    ensures st == ENOSPC ==> Unaffordable(v0, ino, offset, |src|) && StoppedShort(v0, v, own, ino, src, offset)
  {
    hide OutOfRoom, SpaceNeeded;
  }

  lemma WriteGood(v: Vol, own: Owners, v': Vol, own': Owners, k: nat, name: CString, ino: nat, src: seq<byte>,
                  offset: nat, now: u64)
    requires Ready(v, own) && WriteEffect(v, v', own', ino, src, offset) && Consistent(v', own') && Clean(v')
    requires |v.inodes| == MAX_INODES && DirOk(v) && EntryFor(v, k, name, ino) && |src| <= INT_MAX
    ensures Ready(v', own') && DirOk(v') && Step(Table(v), Store(name, src, offset, now), Done, Table(v'))
    ensures RootCompact(v) ==> RootCompact(v')
  {
    hide *;
    ReadyFacts(v, own);
    WriteFacts(v, v', own', ino, src, offset);
    NameOfFile(v, k, name, ino);
    LookupMeaning(v, own, name, k, ino);
    FileChangedTable(v, own, v', own', ino);
    FileChangedShape(v, v', own', ino);
    SmallAgain(v, v');
    ReadyIntro(v', own');
    WriteStep(Table(v), name, src, offset, now, Table(v'));
  }

  lemma WriteFacts(v: Vol, v': Vol, own': Owners, ino: nat, src: seq<byte>, offset: nat)
    requires WriteEffect(v, v', own', ino, src, offset)
    ensures |v.inodes| == MAX_INODES == |v'.inodes| && FileChanged(v, v', own', ino) && offset + |src| <= MAX_FILE_SIZE
    ensures NothingPast(v) ==> NothingPast(v')
    ensures ino < MAX_INODES && ino != 0
    ensures ZeroTail(v) ==> ZeroTail(v') && Contents(v', ino) == Overwrite(Contents(v, ino), offset, src)
  {
    hide Mapping, OtherBlocks, NothingPast, ZeroTail, Contents, Overwrite, BitmapBlocks, SpaceNeeded, RangeMapped;
  }

  lemma WriteStep(fs: FileTable, name: CString, src: seq<byte>, offset: nat, now: u64, fs': FileTable)
    requires name in fs && |src| <= INT_MAX && offset + |src| <= MAX_FILE_SIZE
             && fs' == fs[name := Overwrite(fs[name], offset, src)]
    ensures Step(fs, Store(name, src, offset, now), Done, fs')
  {
    hide Overwrite;
  }

  lemma WriteStuck(v: Vol, own: Owners, v': Vol, own': Owners, k: nat, name: CString, ino: nat, src: seq<byte>,
                   offset: nat, done: nat)
    requires Ready(v, own) && Torn(v, v', own', ino, src, offset, done) && Consistent(v', own') && Clean(v')
    requires |v.inodes| == MAX_INODES && DirOk(v) && EntryFor(v, k, name, ino) && ino < MAX_INODES
    requires Unaffordable(v, ino, offset, |src|) && StoppedShort(v, v', own', ino, src, offset)
    ensures OutOfSpace(v, v', own', name, src, offset)
  {
    hide *;
    ReadyFacts(v, own);
    TornFacts(v, v', own', ino, src, offset, done);
    NameOfFile(v, k, name, ino);
    LookupMeaning(v, own, name, k, ino);
    FileChangedTable(v, own, v', own', ino);
    OneEntry(Table(v), name, Contents(v', ino));
    OutOfSpaceIntro(v, v', own', k, name, ino, src, offset);
  }

  lemma TornFacts(v: Vol, v': Vol, own': Owners, ino: nat, src: seq<byte>, offset: nat, done: nat)
    requires Torn(v, v', own', ino, src, offset, done)
    ensures |v.inodes| == MAX_INODES == |v'.inodes| && FileChanged(v, v', own', ino)
  {
    hide Mapping, OtherBlocks, ByteAt, BitmapBlocks;
  }

  lemma OneEntry(fs: FileTable, name: Name, c: seq<byte>)
    ensures name in fs[name := c] && fs[name := c] - {name} == fs - {name}
  {
  }

  lemma OutOfSpaceIntro(v: Vol, v': Vol, own': Owners, k: nat, name: Name, ino: nat, src: seq<byte>, offset: nat)
    requires |v.inodes| == MAX_INODES == |v'.inodes| && DirOk(v) && DirOk(v') && Consistent(v', own') && Clean(v')
    requires name in Table(v) && name in Table(v') && Table(v') - {name} == Table(v) - {name}
    requires EntryFor(v, k, name, ino) && Unaffordable(v, ino, offset, |src|)
             && StoppedShort(v, v', own', ino, src, offset)
    ensures OutOfSpace(v, v', own', name, src, offset)
  {
    hide Consistent, Clean, DirOk, Table, Unaffordable, EntryFor, StoppedShort;
  }

  // ---------------------------------------------------- truncate, read, readdir

  method DoTruncate(vol: DenyVolume, name: CString, size: nat, now: u64, ghost own: Owners)
    returns (reply: Reply, ghost own': Owners)
    requires vol.Valid() && vol.Reliable() && Ready(vol.View(), own)
    modifies vol.Footprint()
    ensures vol.Valid() && Ready(vol.View(), own') && vol.View().foreign == old(vol.View()).foreign
    ensures |old(vol.View()).inodes| == MAX_INODES && DirOk(old(vol.View())) && DirOk(vol.View())
    ensures RootCompact(old(vol.View())) ==> RootCompact(vol.View())
    ensures reply == Done ==> OnDisk(vol.View(), vol.mac) || vol.View() == old(vol.View())
    ensures Step(Table(old(vol.View())), Cut(name, size, now), reply, Table(vol.View()))
  {
    hide *;
    ghost var v := vol.View();
    ReadyFacts(v, own);
    ReliableNotFaulty(vol);
    own' := own;
    if size > MAX_FILE_SIZE {
      RefusedCut(Table(v), name, size, now);
      reply := Error(ENOSPC);
      return;
    }
    var st, ino;
    ghost var k;
    st, ino, k := VolLookup(vol, name, own);
    if st != OK {
      LookupFailed(v, own, name, st);
      MissingCut(Table(v), name, size, now);
      reply := Error(ENOENT);
      return;
    }
    LookupMeaning(v, own, name, k, ino);
    TruncateCases(v, ino, size);
    st, own' := VolTruncate(vol, ino, size, now, own);
    reply := if st == OK then Done else Error(st);
    if st == OK {
      if size == v.inodes[ino].size {
        SameSizeStep(v, own, ino, name, k, size, now);
      } else {
        TruncateGood(v, own, vol.View(), own', k, name, ino, size, now);
      }
    }
  }

  lemma MissingCut(fs: FileTable, name: CString, size: nat, now: u64)
    requires name !in fs && size <= MAX_FILE_SIZE
    ensures Step(fs, Cut(name, size, now), Error(ENOENT), fs)
  {
  }

  lemma RefusedCut(fs: FileTable, name: CString, size: nat, now: u64)
    requires size > MAX_FILE_SIZE
    ensures Step(fs, Cut(name, size, now), Error(ENOSPC), fs)
  {
  }

  lemma TruncateCases(v: Vol, ino: nat, size: nat)
    requires |v.inodes| == MAX_INODES && IsFile(v, ino)
    ensures TruncateRefused(v, ino, size) == if size > MAX_FILE_SIZE then ENOSPC else OK
    ensures ino < MAX_INODES
  {
  }

  lemma CutStep(fs: FileTable, name: CString, size: nat, now: u64, fs': FileTable)
    requires name in fs && size <= MAX_FILE_SIZE && fs' == fs[name := Resize(fs[name], size)]
    ensures Step(fs, Cut(name, size, now), Done, fs')
  {
    hide Resize;
  }

  lemma SameSizeStep(v: Vol, own: Owners, ino: nat, name: CString, k: nat, size: nat, now: u64)
    requires |v.inodes| == MAX_INODES && DirOk(v) && Consistent(v, own) && EntryFor(v, k, name, ino)
             && size <= MAX_FILE_SIZE
    requires ino < MAX_INODES && size == v.inodes[ino].size
    ensures Step(Table(v), Cut(name, size, now), Done, Table(v))
  {
    hide *;
    LookupMeaning(v, own, name, k, ino);
    SameSize(v, ino);
    CutStep(Table(v), name, size, now, Table(v));
  }

  lemma SameSize(v: Vol, ino: nat)
    requires |v.inodes| == MAX_INODES && ino < MAX_INODES && v.inodes[ino].size <= MAX_FILE_SIZE
    ensures Resize(Contents(v, ino), v.inodes[ino].size) == Contents(v, ino)
  {
    hide ByteAt;
  }

  lemma TruncateGood(v: Vol, own: Owners, v': Vol, own': Owners, k: nat, name: CString, ino: nat, size: nat, now: u64)
    requires Ready(v, own) && TruncateEffect(v, own, v', own', ino, size) && Consistent(v', own') && Clean(v')
    requires |v.inodes| == MAX_INODES && DirOk(v) && EntryFor(v, k, name, ino) && size <= MAX_FILE_SIZE
    ensures Ready(v', own') && DirOk(v') && Step(Table(v), Cut(name, size, now), Done, Table(v'))
    ensures RootCompact(v) ==> RootCompact(v')
  {
    hide *;
    ReadyFacts(v, own);
    TruncateFacts(v, own, v', own', ino, size);
    NameOfFile(v, k, name, ino);
    LookupMeaning(v, own, name, k, ino);
    FileChangedTable(v, own, v', own', ino);
    FileChangedShape(v, v', own', ino);
    SmallAgain(v, v');
    ReadyIntro(v', own');
    CutStep(Table(v), name, size, now, Table(v'));
  }

  lemma TruncateFacts(v: Vol, own: Owners, v': Vol, own': Owners, ino: nat, size: nat)
    requires TruncateEffect(v, own, v', own', ino, size)
    ensures |v.inodes| == MAX_INODES == |v'.inodes| && FileChanged(v, v', own', ino) && ino < MAX_INODES && ino != 0
    ensures NothingPast(v) ==> NothingPast(v')
    ensures ZeroTail(v) ==> ZeroTail(v') && Contents(v', ino) == Resize(Contents(v, ino), size)
  {
    hide Mapping, OtherBlocks, NothingPast, ZeroTail, Contents, Resize, BitmapBlocks, Restricted, ByteAt, Ref;
  }

  method DoRead(vol: DenyVolume, name: CString, len: nat, offset: nat, ghost own: Owners) returns (reply: Reply)
    requires vol.Valid() && vol.Reliable() && Ready(vol.View(), own)
    ensures vol.Valid() && vol.View() == old(vol.View())
    ensures |vol.View().inodes| == MAX_INODES && DirOk(vol.View())
    ensures Step(Table(vol.View()), Fetch(name, len, offset), reply, Table(vol.View()))
  {
    hide *;
    ghost var v := vol.View();
    ReadyFacts(v, own);
    ReliableNotFaulty(vol);
    FetchSteps(Table(v), name, len, offset);
    var st, ino;
    ghost var k;
    st, ino, k := VolLookup(vol, name, own);
    if st != OK {
      LookupFailed(v, own, name, st);
      reply := Error(ENOENT);
      return;
    }
    LookupMeaning(v, own, name, k, ino);
    ReadCases(v, ino, len);
    var data;
    st, data := VolRead(vol, ino, len, offset, own);
    reply := if st == OK then Bytes(data) else Error(st);
  }

  lemma ReadCases(v: Vol, ino: nat, len: nat)
    requires |v.inodes| == MAX_INODES && IsFile(v, ino)
    ensures ReadRefused(v, ino, len) == if len > INT_MAX then EINVAL else OK
  {
  }

  lemma FetchSteps(fs: FileTable, name: CString, len: nat, offset: nat)
    ensures name !in fs ==> Step(fs, Fetch(name, len, offset), Error(ENOENT), fs)
    ensures name in fs ==>
              Step(fs, Fetch(name, len, offset),
                   if len > INT_MAX then Error(EINVAL) else Bytes(Slice(fs[name], offset, len)), fs)
  {
    hide Slice;
  }

  method DoList(vol: DenyVolume, ghost own: Owners) returns (reply: Reply)
    requires vol.Valid() && vol.Reliable() && Ready(vol.View(), own)
    ensures vol.Valid() && vol.View() == old(vol.View())
    ensures |vol.View().inodes| == MAX_INODES && DirOk(vol.View())
    ensures Step(Table(vol.View()), List, reply, Table(vol.View()))
  {
    hide *;
    ghost var v := vol.View();
    ReadyFacts(v, own);
    ReliableNotFaulty(vol);
    var st, seen := VolReadDir(vol, _ => false, own);
    NeverStopped(v, DIRENTS_PER_BLOCK * DIRECT_BLOCKS, seen, _ => false);
    ListingMeaning(v, own);
    ListStepOf(v, Table(v));
    reply := Entries(seen);
  }

  lemma NeverStopped(v: Vol, n: nat, seen: seq<Entry>, stop: seq<Entry> -> bool)
    requires |v.inodes| == MAX_INODES && (Delivered(v, n, seen, stop) || Stopped(v, n, seen, stop))
    requires forall s :: !stop(s)
    ensures seen == Listing(v, n)
  {
    hide Listing;
  }

  lemma ListStepOf(v: Vol, fs: FileTable)
    requires |v.inodes| == MAX_INODES && Lists(v, Listing(v, DIRENTS_PER_BLOCK * DIRECT_BLOCKS), fs)
    ensures Step(fs, List, Entries(Listing(v, DIRENTS_PER_BLOCK * DIRECT_BLOCKS)), fs)
  {
    hide Listing, Contents;
  }

  // ------------------------------------------------------------------ whole runs

  /**
   * One call on volume v, answered: the table of files changes as a map would, a create of a new name
   * succeeds exactly if there is an inode and room in the directory, and the root stays small.
   */
  ghost predicate Answers(v: Vol, op: Op, reply: Reply, v': Vol)
  {
    && |v.inodes| == MAX_INODES == |v'.inodes| && DirOk(v) && DirOk(v')
    && Step(Table(v), op, reply, Table(v'))
    && (op.Creat? ==> (reply == Done <==> CreateRefused(v, op.name) == OK))
    && (RootCompact(v) ==> RootCompact(v'))
  }

  lemma AnswersIntro(v: Vol, op: Op, reply: Reply, v': Vol)
    requires |v.inodes| == MAX_INODES == |v'.inodes| && DirOk(v) && DirOk(v') && Step(Table(v), op, reply, Table(v'))
    requires op.Creat? ==> (reply == Done <==> CreateRefused(v, op.name) == OK)
    requires RootCompact(v) ==> RootCompact(v')
    ensures Answers(v, op, reply, v')
  {
    hide Step, DirOk, Table, CreateRefused, RootCompact;
  }

  /** When a create of a new name fails: no inode is free, or the directory needs a block and none is free. */
  lemma CreateAnswered(v: Vol, own: Owners, name: CString, now: u64, reply: Reply, v': Vol)
    requires Ready(v, own) && Answers(v, Creat(name, now), reply, v')
    requires ValidName(name) && name !in Table(v)
    ensures reply == Done || reply == Error(ENOSPC)
    ensures reply == Error(ENOSPC) <==> v.freeInodes == 0 || (DirFull(v) && v.freeBlocks == 0)
  {
    hide Ready, DirOk, Table, ValidName, DirFull, NoRoom, RootCompact, Named;
    ReadyFacts(v, own);
    LookupMeaning(v, own, name, 0, 0);
    RoomForEntry(v, own);
  }

  /** trace records the volume before and after each call answered so far. */
  ghost predicate Follows(trace: seq<Vol>, ops: seq<Op>, replies: seq<Reply>)
  {
    && |trace| == |replies| + 1 && |replies| <= |ops|
    && forall i :: 0 <= i < |replies| ==> Answers(trace[i], ops[i], replies[i], trace[i + 1])
  }

  lemma FollowsMore(trace: seq<Vol>, ops: seq<Op>, replies: seq<Reply>, reply: Reply, v: Vol)
    requires Follows(trace, ops, replies) && |replies| < |ops| && Answers(trace[|replies|], ops[|replies|], reply, v)
    ensures Follows(trace + [v], ops, replies + [reply])
  {
    hide Answers;
    var t, r := trace + [v], replies + [reply];
    forall i | 0 <= i < |r|
      ensures Answers(t[i], ops[i], r[i], t[i + 1])
    {
      if i < |replies| { assert t[i] == trace[i] && t[i + 1] == trace[i + 1] && r[i] == replies[i]; }
    }
  }

  /** On a run from a small root, as after formatting, the root directory never takes more than 4 blocks. */
  lemma {:induction false} RootStaysSmallInRun(trace: seq<Vol>, ops: seq<Op>, replies: seq<Reply>, i: nat)
    requires Follows(trace, ops, replies) && RootCompact(trace[0]) && i < |trace|
    ensures RootCompact(trace[i])
    decreases i
  {
    hide Step, DirOk, Table, CreateRefused;
    if i > 0 {
      RootStaysSmallInRun(trace, ops, replies, i - 1);
      assert Answers(trace[i - 1], ops[i - 1], replies[i - 1], trace[i]);
    }
  }

  /** Discarding memory and opening the volume again gives exactly this state back. */
  ghost predicate Durable(v: Vol, mac: seq<Sector> -> Mac)
  {
    && Opens(v.disk, mac, v.foreign)
    && 3 + BitmapBlocks(|v.disk|) < |v.disk| && Loaded(v.disk, v.foreign) == v
  }

  lemma Durability(v: Vol, own: Owners, mac: seq<Sector> -> Mac)
    requires Ready(v, own)
    ensures OnDisk(v, mac) ==> Durable(v, mac)
  {
    hide OnDisk, Sound, ZeroTail, Clean, Opens, Loaded, BitmapBlocks;
    if OnDisk(v, mac) {
      LoadedIsFlushed(v, mac);
      Persistence(v, own, mac);
    }
  }

  /** A freshly formatted volume is where a run can start, with no files. */
  lemma FormattedReady(disk: seq<Sector>, mac: seq<Sector> -> Mac, now: u64, foreign: map<nat, Sector>)
    requires IsFormatted(disk, mac, now)
    ensures 3 + BitmapBlocks(|disk|) < |disk| <= INT32_LIMIT
    ensures var v := Formatted(disk, now, foreign);
            Ready(v, FormatOwners(|disk|)) && Durable(v, mac) && |v.inodes| == MAX_INODES && DirOk(v)
                && Table(v) == map[]
  {
    hide Sound, ZeroTail, Clean, Opens, Loaded, BitmapBlocks, OnDisk, Formatted, FormatOwners, DirOk, Table,
         EmptyDirBlock;
    OnDiskAnywhere(disk, mac, now, foreign);
    FormattedOpens(disk, mac, now, foreign);
    FormatGood(disk, now, foreign);
    FormattedDirectory(disk, now, foreign);
    LoadedClean(disk, foreign);
    FormattedDisk(disk, now, foreign);
  }

  /** One call. */
  method Call(vol: DenyVolume, op: Op, ghost own: Owners) returns (reply: Reply, stuck: bool, ghost own': Owners)
    requires vol.Valid() && vol.Reliable() && Ready(vol.View(), own)
    modifies vol.Footprint()
    ensures vol.Valid() && vol.View().foreign == old(vol.View()).foreign
    ensures !stuck ==> Ready(vol.View(), own') && Answers(old(vol.View()), op, reply, vol.View())
    ensures !stuck && reply == Done ==> Durable(vol.View(), vol.mac) || vol.View() == old(vol.View())
    ensures stuck ==> op.Store? && OutOfSpace(old(vol.View()), vol.View(), own', op.name, op.src, op.offset)
  {
    hide *;
    own', stuck := own, false;
    ReadyFacts(vol.View(), own);
    ghost var v := vol.View();
    ghost var ino, k, done;
    match op {
      case Creat(name, now) => reply, own', ino, k := DoCreate(vol, name, now, own);
      case Remove(name) => reply, own' := DoUnlink(vol, name, own);
      case Store(name, src, offset, now) =>
        reply, stuck, own', ino, k, done := DoWrite(vol, name, src, offset, now, own);
      case Cut(name, size, now) => reply, own' := DoTruncate(vol, name, size, now, own);
      case Fetch(name, len, offset) => reply := DoRead(vol, name, len, offset, own);
      case List => reply := DoList(vol, own);
    }
    if !stuck {
      ReadyFacts(vol.View(), own');
      AnswersIntro(v, op, reply, vol.View());
      Durability(vol.View(), own', vol.mac);
    }
  }

  /** Every volume of the trace meets the invariant between calls. */
  ghost predicate AllReady(trace: seq<Vol>, owners: seq<Owners>)
  {
    |owners| == |trace| && forall i :: 0 <= i < |trace| ==> Ready(trace[i], owners[i])
  }

  /**
   * A finite sequence of calls on a mounted volume whose host does not fail. Every answer is the one
   * that a map from names to byte strings gives; the invariant holds after every call. The run stops
   * early only when a write needs more blocks than are free, and part of it is stored.
   */
  method Run(vol: DenyVolume, ops: seq<Op>, ghost own: Owners)
    returns (replies: seq<Reply>, stuck: bool, ghost own': Owners, ghost trace: seq<Vol>, ghost owners: seq<Owners>)
    requires vol.Valid() && vol.Reliable() && Ready(vol.View(), own)
    modifies vol.Footprint()
    ensures vol.Valid() && vol.View().foreign == old(vol.View()).foreign
    ensures Follows(trace, ops, replies) && trace[0] == old(vol.View()) && AllReady(trace, owners)
    ensures !stuck ==> |replies| == |ops| && Ready(vol.View(), own') && trace[|replies|] == vol.View()
    ensures stuck ==>
              |replies| < |ops| && ops[|replies|].Store?
              && var op := ops[|replies|];
                 OutOfSpace(trace[|replies|], vol.View(), own', op.name, op.src, op.offset)
  {
    hide *;
    replies, stuck, own', trace, owners := [], false, own, [vol.View()], [own];
    FollowsNone(vol.View(), own, ops);
    while |replies| < |ops|
      invariant vol.Valid() && Ready(vol.View(), own') && vol.View().foreign == old(vol.View()).foreign && !stuck
      invariant Follows(trace, ops, replies) && |trace| == |replies| + 1 && |replies| <= |ops|
      invariant trace[0] == old(vol.View()) && trace[|replies|] == vol.View() && AllReady(trace, owners)
      decreases |ops| - |replies|
    {
      var reply;
      reply, stuck, own' := Call(vol, ops[|replies|], own');
      if stuck {
        return;
      }
      FollowsMore(trace, ops, replies, reply, vol.View());
      ReadyMore(trace, owners, vol.View(), own');
      replies, trace, owners := replies + [reply], trace + [vol.View()], owners + [own'];
    }
  }

  lemma FollowsNone(v: Vol, own: Owners, ops: seq<Op>)
    requires Ready(v, own)
    ensures Follows([v], ops, []) && AllReady([v], [own])
  {
    hide Answers, Ready;
  }

  lemma ReadyMore(trace: seq<Vol>, owners: seq<Owners>, v: Vol, own: Owners)
    requires AllReady(trace, owners) && Ready(v, own)
    ensures AllReady(trace + [v], owners + [own])
  {
    hide Ready;
  }
}
