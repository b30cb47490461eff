/** The smallest volume: one free block, and how a write of two makes it one that cannot be opened again. */
module Smallest {
  import opened Base
  import opened Codec
  import opened FileMap
  import opened Ownership
  import opened Files
  import opened Growth
  import opened Bytes
  import opened FileSystem
  import opened FileOps
  import opened Persist
  import opened Volume
  import opened Flush
  import opened Access
  import opened Directory
  import opened Dirents
  import opened Create
  import opened Scan
  import opened Open
  import opened Format
  import opened Runs
  import opened ShortWrites

  /** A file of size 0 needs its first block, and for more than a block of data also its second. */
  lemma EmptyFileNeeds(v: Vol, ino: nat, len: nat)
    requires |v.inodes| == MAX_INODES && NothingPast(v) && IsFile(v, ino) && v.inodes[ino].size == 0
             && 0 < len <= 2 * SECTOR_SIZE
    ensures |SpaceNeeded(v, ino, 0, len)| == if len <= SECTOR_SIZE then 1 else 2
  {
    hide Get;
    assert Phys(v, ino, 0) == INVALID && Phys(v, ino, 1) == INVALID;
    assert Missing(v, ino, 0) == {Data(0)} && Missing(v, ino, 1) == {Data(1)};
    hide Missing;
    assert MissingRange(v, ino, 0, 0) == {};
    assert MissingRange(v, ino, 0, 1) == {Data(0)};
    if len > SECTOR_SIZE {
      assert BlocksFor(len) == 2;
      assert MissingRange(v, ino, 0, 2) == {Data(1), Data(0)};
    }
  }

  lemma ExampleStored(v0: Vol, own0: Owners, v: Vol, own: Owners, ino: nat, src: seq<byte>, done: nat)
    requires Sound(v0, own0) && |v0.inodes| == MAX_INODES && IsFile(v0, ino) && v0.inodes[ino].size == 0
             && v0.freeBlocks == 1
    requires |src| == 2 * SECTOR_SIZE && OutOfRoom(v0, v, own, ino, src, 0, done) && Consistent(v, own)
    ensures done == SECTOR_SIZE && !Acceptable(v)
  {
    hide *;
    SoundCore(v0, own0);
    OutOfRoomFacts(v0, v, own, ino, src, 0, done);
    LongestPrefix(v0, own0, v, own, ino, src, 0, done);
    ExampleDone(v0, ino, done);
    LoadableByStored(v0, own0, v, own, ino, src, 0, done);
    OneBlock();
  }

  lemma OneBlock()
    ensures BlocksFor(0 + SECTOR_SIZE) == 1 && BlocksFor(0) == 0 && SECTOR_SIZE > 0
  {
  }

  lemma ExampleDone(v: Vol, ino: nat, done: nat)
    requires |v.inodes| == MAX_INODES && NothingPast(v) && IsFile(v, ino) && v.inodes[ino].size == 0
             && done < 2 * SECTOR_SIZE
    requires |SpaceNeeded(v, ino, 0, done)| <= 1 < |SpaceNeeded(v, ino, 0, done + 1)|
    ensures done == SECTOR_SIZE
  {
    hide SpaceNeeded, NothingPast;
    EmptyFileNeeds(v, ino, done + 1);
    if done > 0 { EmptyFileNeeds(v, ino, done); }
  }

  /** An empty file, and one free block. */
  ghost predicate EmptyFileOneFree(v: Vol, ino: nat)
  {
    |v.inodes| == MAX_INODES && IsFile(v, ino) && v.inodes[ino].size == 0 && v.freeBlocks == 1
  }

  lemma ExampleFacts(v: Vol, own: Owners, ino: nat, src: seq<byte>)
    requires Good(v, own) && EmptyFileOneFree(v, ino) && |src| == 2 * SECTOR_SIZE
    ensures Sound(v, own) && Consistent(v, own) && |v.inodes| == MAX_INODES && IsFile(v, ino) && ino < MAX_INODES
    ensures v.inodes[ino].size == 0 && v.freeBlocks == 1
    ensures WriteRefused(v, ino, |src|, 0) == OK && 0 + |src| <= MAX_FILE_SIZE && |SpaceNeeded(v, ino, 0, |src|)| == 2
  {
    hide Consistent, ZeroTail, SpaceNeeded, NothingPast;
    EmptyFileNeeds(v, ino, |src|);
  }

  lemma OutcomeOfShort(v0: Vol, v: Vol, own: Owners, ino: nat, src: seq<byte>, offset: nat, done: nat, st: Status)
    requires WriteOutcome(v0, v, own, ino, src, offset, done, st) && |v0.inodes| == MAX_INODES && ino < MAX_INODES
    requires offset + |src| <= MAX_FILE_SIZE && v0.freeBlocks < |SpaceNeeded(v0, ino, offset, |src|)|
    ensures st == ENOSPC && OutOfRoom(v0, v, own, ino, src, offset, done)
  {
    hide OutOfRoom, SpaceNeeded;
  }

  // --------------------------------------------------------------- from formatting on

  const SMALLEST: nat := 6

  /** The file's name: a single letter. */
  function NameA(): (name: CString)
    ensures ValidName(name)
  {
    [97]
  }

  lemma SmallestFits()
    ensures BitmapBlocks(SMALLEST) == 1 && FormatAccepts(SMALLEST * SECTOR_SIZE)
    ensures SMALLEST * SECTOR_SIZE / SECTOR_SIZE == SMALLEST <= INT32_LIMIT
    ensures SMALLEST * SECTOR_SIZE % SECTOR_SIZE == 0
  {
  }

  /** Mounted for the first time, the smallest volume has one free block and room for a file's name. */
  lemma FirstMount(v: Vol, mac: seq<Sector> -> Mac, now: u64)
    requires |v.disk| == SMALLEST && IsFormatted(v.disk, mac, now) && IsLoaded(v, v.disk)
    ensures Ready(v, FormatOwners(SMALLEST)) && |v.inodes| == MAX_INODES && v.freeBlocks == 1 && !DirFull(v)
    ensures CreateRefused(v, NameA()) == OK
  {
    hide Ready, Durable, FormatOwners, DirOk, Table, FormatBits, FormatNodes, Live, IsFormatted, EmptyDirBlock, Loaded,
         Opens, ValidName, Good, NameA;
    SmallestFits();
    FormattedOpens(v.disk, mac, now, v.foreign);
    FormattedReady(v.disk, mac, now, v.foreign);
    OnDiskAnywhere(v.disk, mac, now, v.foreign);
    FormattedDirectory(v.disk, now, v.foreign);
    assert !Live(v, 0);
  }

  /** The new file is empty, and the one free block is still there. */
  lemma FileMade(v0: Vol, v: Vol, own: Owners, name: Name, ino: nat, k: nat)
    requires CreateEffect(v0, v, own, name, ino, k) && v0.freeBlocks == 1 && !DirFull(v0)
    ensures EmptyFileOneFree(v, ino)
  {
    hide Consistent, OtherBlocks, RefsKept, BitmapBlocks, EntryChanged, Live, NothingPast, ZeroTail, ValidName, Named;
  }

  lemma AddedEntry(v0: Vol, v: Vol, own: Owners, name: Name, ino: nat, k: nat)
    requires CreateEffect(v0, v, own, name, ino, k)
    ensures EntryFor(v, k, name, ino)
  {
    hide Consistent, OtherBlocks, RefsKept, Added, Live, NothingPast, ZeroTail, EntryAt;
    CreateEffectFacts(v0, v, own, name, ino, k);
    AddedLive(v0, v, k, name, ino);
  }

  /** Writing the metadata out does not help: what the loader refuses it still refuses. */
  lemma StillRefused(v: Vol, own: Owners, w: Vol, mac: seq<Sector> -> Mac)
    requires Consistent(v, own) && !Acceptable(v) && MetaWritten(v, w) && OnDisk(w, mac)
    ensures !Opens(w.disk, mac, w.foreign)
  {
    hide Consistent, Mapping, MetaWritten, OnDisk, DirOk, Table, NothingPast, ZeroTail, Contents, ByteAt, Ref,
         Loaded, BitmapBlocks, SameDirectory, Acceptable, DecodeSuperblock, ValidateSuperblock;
    MetaWrittenShape(v, w);
    MetaWrittenFiles(v, own, w);
    MetaWrittenRefs(v, own, w);
    SameInodes(w, v);
    LoadableIff(v, own);
    LoadableIff(w, own);
    LoadedIsFlushed(w, mac);
  }

  lemma FormattedLoads(disk: seq<Sector>, mac: seq<Sector> -> Mac, now: u64, foreign: map<nat, Sector>)
    requires IsFormatted(disk, mac, now)
    ensures Opens(disk, mac, foreign)
  {
    hide IsFormatted, Opens, Loaded, Formatted, BitmapBlocks;
    FormattedOpens(disk, mac, now, foreign);
  }

  lemma Mounted(vol: DenyVolume, sectors: array<Sector>, cipher: Cipher, mac: seq<Sector> -> Mac)
    requires vol.Valid() && vol.sectors == sectors && vol.cipher == cipher && vol.mac == mac && vol.start == 0
    requires vol.total == SMALLEST && !vol.protect && vol.protectStart == 0 && !vol.faulty
    ensures sectors.Length >= SMALLEST && vol.View().disk == Plain(sectors[..], cipher, 0, SMALLEST)
    ensures vol.View().foreign == ForeignSectors(sectors[..], 0, SMALLEST, false, 0) && vol.Reliable()
  {
    hide DenyVolume.Valid, DenyVolume.View, Plain, ForeignSectors;
    assert MountedAt(vol, sectors, cipher, mac, 0, SMALLEST, false, 0, false);
    MountedDisk(vol, sectors, cipher, mac, 0, SMALLEST, false, 0, false);
  }

  lemma MountedFields(vol: DenyVolume, sectors: array<Sector>, cipher: Cipher, mac: seq<Sector> -> Mac)
    requires MountedAt(vol, sectors, cipher, mac, 0, SMALLEST, false, 0, false)
    ensures vol.Valid() && vol.sectors == sectors && vol.cipher == cipher && vol.mac == mac && vol.start == 0
    ensures vol.total == SMALLEST && !vol.protect && vol.protectStart == 0 && !vol.faulty
  {
    hide DenyVolume.Valid, DenyVolume.Footprint;
  }

  lemma ReadyGood(v: Vol, own: Owners)
    requires Ready(v, own)
    ensures Good(v, own) && Clean(v) && Consistent(v, own)
  {
    hide Sound, ZeroTail, Clean;
    ReadyFacts(v, own);
  }

  /** The inode that the name now leads to. */
  method FindFile(vol: DenyVolume, ghost own: Owners, ghost ino: nat, ghost k: nat) returns (i: u32)
    requires vol.Valid() && vol.Reliable() && Ready(vol.View(), own) && EntryFor(vol.View(), k, NameA(), ino)
    ensures vol.Valid() && vol.View() == old(vol.View()) && i == ino
  {
    hide *;
    ghost var v := vol.View();
    ReadyFacts(v, own);
    ReliableNotFaulty(vol);
    LookupMeaning(v, own, NameA(), k, ino);
    NameAFits();
    var st;
    ghost var k';
    st, i, k' := VolLookup(vol, NameA(), own);
    EntryNames(v, k, NameA(), ino);
    EntryUnique(v, k, k', NameA(), ino, i);
  }

  lemma NameAFits()
    ensures 0 < |NameA()| < MAX_NAME_LEN
  {
  }

  lemma EntryNames(v: Vol, k: nat, name: Name, ino: nat)
    requires EntryFor(v, k, name, ino)
    ensures |v.inodes| == MAX_INODES && Named(v, name)
  {
    hide EntryAt;
  }

  /**
   * Six blocks are formatted and mounted, which leaves one free block; a file is made, and two blocks are
   * written to it. The write fails, its first block stays mapped past the file's size 0, and after the
   * flush at the end of the mount the volume can no longer be opened.
   */
  method ShortWriteExample(cipher: Cipher, mac: seq<Sector> -> Mac, now: u64)
    returns (made: Reply, written: Status, reopened: Option<DenyVolume>)
    requires cipher.Inverse()
    ensures made == Done && written == ENOSPC && reopened == None
  {
    hide *;
    SmallestFits();
    var sectors := new Sector[SMALLEST](_ => ZeroSector());
    var ok := FormatVolume(sectors, cipher, mac, 0, SMALLEST * SECTOR_SIZE, now, false);
    FormattedLoads(Plain(sectors[..], cipher, 0, SMALLEST), mac, now,
                   ForeignSectors(sectors[..], 0, SMALLEST, false, 0));
    var mount;
    ghost var own;
    mount, own := OpenVolume(sectors, cipher, mac, 0, SMALLEST * SECTOR_SIZE, false, 0, false);
    var vol := mount.value;
    MountedFields(vol, sectors, cipher, mac);
    Mounted(vol, sectors, cipher, mac);
    ghost var v0 := vol.View();
    FirstMount(v0, mac, now);
    ghost var ino, k, done;
    made, own, ino, k := DoCreate(vol, NameA(), now, FormatOwners(SMALLEST));
    ghost var v1 := vol.View();
    FileMade(v0, v1, own, NameA(), ino, k);
    AddedEntry(v0, v1, own, NameA(), ino, k);
    var i := FindFile(vol, own, ino, k);
    ghost var own';
    var src: seq<byte> := seq(2 * SECTOR_SIZE, _ => 1);
    ReadyGood(v1, own);
    ExampleFacts(v1, own, i, src);
    var n;
    written, n, own', done := VolWrite(vol, i, src, 0, now, own);
    ghost var v2 := vol.View();
    OutcomeOfShort(v1, v2, own', i, src, 0, done, written);
    ExampleStored(v1, own, v2, own', i, src, done);
    var flushed := VolFlush(vol);
    StillRefused(v2, own', vol.View(), mac);
    Mounted(vol, sectors, cipher, mac);
    reopened, own := OpenVolume(sectors, cipher, mac, 0, SMALLEST * SECTOR_SIZE, false, 0, false);
  }
}
