/**
 * A reader of images that knows the format by its offsets only: it takes words and bytes out of a
 * volume's blocks and finds the files in them. In whatever image an open accepts, and so in whatever a
 * flush leaves behind, it finds the files that the volume stands for.
 */
module Reader {
  import opened Base
  import opened Codec
  import opened FileMap
  import opened Ownership
  import opened Growth
  import opened Files
  import opened BlockMap
  import opened FileSystem
  import opened FileOps
  import opened Persist
  import opened Image
  import opened Create
  import opened Directory
  import opened Open

  /** The 32-bit word at a byte of a block, and none when there is no such block. */
  function Word(disk: seq<Sector>, b: nat, at: nat): (x: u32)
    requires at + 4 <= 4096
  {
    if b < |disk| then WordAt(disk[b], at) else 0xFFFF_FFFF
  }

  /** The block with the record of inode i: the inode table starts after the bitmap. */
  function InodeBlock(disk: seq<Sector>, i: nat): (b: nat)
  {
    1 + (|disk| + 32767) / 32768 + i / 32
  }

  /** The number of the block that holds logical block lb of inode i: direct, through one table, or through two. */
  function BlockNumber(disk: seq<Sector>, i: nat, lb: nat): (p: u32)
    requires lb < 20 + 1024 + 1024 * 1024
  {
    var b, record := InodeBlock(disk, i), 128 * (i % 32);
    if lb < 20 then Word(disk, b, record + 16 + 4 * lb)
    else if lb < 1044 then Word(disk, Word(disk, b, record + 96), 4 * (lb - 20))
    else Word(disk, Word(disk, Word(disk, b, record + 100), 4 * ((lb - 1044) / 1024)), 4 * ((lb - 1044) % 1024))
  }

  /** Byte k of inode i; a hole reads as zeros. */
  function ByteOf(disk: seq<Sector>, i: nat, k: nat): (x: byte)
    requires k < 0x1_0000_0000
  {
    var p := BlockNumber(disk, i, k / 4096);
    if p < |disk| then disk[p][k % 4096] else 0
  }

  /** The size of inode i. */
  function SizeOf(disk: seq<Sector>, i: nat): (n: nat)
  {
    if InodeBlock(disk, i) < |disk| then LongAt(disk[InodeBlock(disk, i)], 128 * (i % 32) + 4) else 0
  }

  /** c is the file of inode i. */
  ghost predicate HoldsFile(disk: seq<Sector>, i: nat, c: seq<byte>)
  {
    |c| == SizeOf(disk, i) <= 0x1_0000_0000 && forall k :: 0 <= k < |c| ==> c[k] == ByteOf(disk, i, k)
  }

  /** Slot k of the root directory, 16 to a block and 256 bytes each, gives inode i this name. */
  ghost predicate NamesFile(disk: seq<Sector>, k: nat, name: Name, i: nat)
    requires k < 320
  {
    var b := BlockNumber(disk, 0, k / 16);
    && b < |disk| && Word(disk, b, 256 * (k % 16)) == i != 0xFFFF_FFFF
    && disk[b][256 * (k % 16) + 4] == |name| <= 251
    && disk[b][256 * (k % 16) + 5..256 * (k % 16) + 5 + |name|] == name
  }

  // --------------------------------------------------- what the reader finds

  lemma TableWord(disk: seq<Sector>, t: u32, j: nat)
    requires j < 1024
    ensures Word(disk, t, 4 * j) == At(disk, t, j)
  {
  }

  /** The inode record that the reader looks at holds the cached inode. */
  lemma RecordOf(v: Vol, i: nat)
    requires IsLoaded(v, v.disk) && i < 64
    ensures |v.inodes| == 64 && InodeBlock(v.disk, i) < |v.disk|
    ensures InodeRecord(v.disk[InodeBlock(v.disk, i)], 128 * (i % 32), v.inodes[i])
  {
    hide InodeRecord, DecodeInode, DecodeBitmap, DecodeSuperblock, BitmapBlocks;
    BitmapSectors(|v.disk|);
    InodeFields(v.disk[InodeBlock(v.disk, i)], i % 32);
  }

  lemma BlockNumberIs(v: Vol, i: nat, lb: nat)
    requires IsLoaded(v, v.disk) && i < 64 && lb < 20 + 1024 + 1024 * 1024
    ensures |v.inodes| == 64 && BlockNumber(v.disk, i, lb) == Phys(v, i, lb)
  {
    hide WordAt, LongAt, IsLoaded, InodeBlock, At, Word;
    RecordOf(v, i);
    WordsOf(v.disk, i, v.inodes[i], lb);
    if 20 <= lb < 1044 {
      TableWord(v.disk, v.inodes[i].indirect, lb - 20);
    } else if 1044 <= lb {
      TableWord(v.disk, v.inodes[i].double, (lb - 1044) / 1024);
      TableWord(v.disk, At(v.disk, v.inodes[i].double, (lb - 1044) / 1024), (lb - 1044) % 1024);
    }
  }

  lemma WordsOf(disk: seq<Sector>, i: nat, n: Inode, lb: nat)
    requires InodeBlock(disk, i) < |disk| && InodeRecord(disk[InodeBlock(disk, i)], 128 * (i % 32), n)
    ensures lb < 20 ==> Word(disk, InodeBlock(disk, i), 128 * (i % 32) + 16 + 4 * lb) == n.direct[lb]
    ensures Word(disk, InodeBlock(disk, i), 128 * (i % 32) + 96) == n.indirect
    ensures Word(disk, InodeBlock(disk, i), 128 * (i % 32) + 100) == n.double
    ensures SizeOf(disk, i) == n.size
  {
    hide WordAt, LongAt, InodeBlock;
  }

  /** The bytes of a file are where the reader finds them. */
  lemma FileFound(v: Vol, own: Owners, i: nat, c: seq<byte>)
    requires IsLoaded(v, v.disk) && Consistent(v, own) && i < 64 && |v.inodes| == 64 && v.inodes[i].size <= 0x1_0000_0000
    ensures HoldsFile(v.disk, i, c) <==> c == Contents(v, i)
  {
    hide WordAt, LongAt, IsLoaded, BlockNumber, Phys, InodeBlock, SizeOf, InodeRecord, Consistent;
    RecordOf(v, i);
    WordsOf(v.disk, i, v.inodes[i], 0);
    BlocksCounted(v, own);
    forall k | 0 <= k < v.inodes[i].size
      ensures ByteOf(v.disk, i, k) == Contents(v, i)[k]
    {
      BlockNumberIs(v, i, k / 4096);
    }
  }

  lemma BlocksCounted(v: Vol, own: Owners)
    requires Consistent(v, own)
    ensures |v.disk| <= 0xFFFF_FFFF
  {
    hide BitmapBlocks, Counted, NoHollow, Core, DirOk, Shaped, FreeInodeSet;
    MappingFacts(v, own);
    GeometryBounds(v);
  }

  /** An entry that the reader finds is an entry in use, and the other way round. */
  lemma EntryFound(v: Vol, own: Owners, k: nat, name: Name, i: nat)
    requires IsLoaded(v, v.disk) && Consistent(v, own) && k < 320
    ensures NamesFile(v.disk, k, name, i) <==> EntryFor(v, k, name, i)
  {
    hide WordAt, IsLoaded, BlockNumber, Consistent, Readable, Phys, Block, EntryAt, Live, DecodeDirent, ValidDirent;
    var bi, j := k / 16, k % 16;
    DirectoryReadable(v, own);
    RootBlock(v, own, bi);
    BlockNumberIs(v, 0, bi);
    BlocksCounted(v, own);
    if bi < v.inodes[0].blockCount {
      EntriesValid(v, own, bi, j);
      SlotSplit(k);
      EntryBytes(Block(v, 0, bi), j, name, i);
      EntryIsFor(v, k, name, i, DecodeDirent(Block(v, 0, bi), j));
    } else {
      NoSlot(v, k, name, i);
    }
  }

  lemma SlotSplit(k: nat)
    ensures DIRENTS_PER_BLOCK * (k / 16) + k % 16 == k
  {
  }

  lemma NoSlot(v: Vol, k: nat, name: Name, i: nat)
    requires |v.inodes| == 64 && v.inodes[0].blockCount <= k / 16
    ensures !EntryFor(v, k, name, i)
  {
    hide EntryAt;
  }

  lemma EntryBytes(s: Sector, j: nat, name: Name, i: nat)
    requires j < 16 && ValidDirent(DecodeDirent(s, j))
    ensures WordAt(s, 256 * j) == i != 0xFFFF_FFFF && s[256 * j + 4] == |name| <= 251
            && s[256 * j + 5..256 * j + 5 + |name|] == name
            <==>
            var e := DecodeDirent(s, j); e.inode != INVALID && e.inode == i && NameOf(e) == name
  {
    hide WordAt, ValidName;
    var e := DecodeDirent(s, j);
    if e.inode != INVALID {
      assert NameOf(e) == s[256 * j + 5..256 * j + 5 + e.nameLen];
    }
  }

  lemma EntryIsFor(v: Vol, k: nat, name: Name, i: nat, e: Dirent)
    requires |v.inodes| == MAX_INODES && k < DIRENTS_PER_BLOCK * DIRECT_BLOCKS && EntryAt(v, k) == e
    requires Live(v, k) <==> e.inode != INVALID
    ensures EntryFor(v, k, name, i) <==> e.inode != INVALID && e.inode == i && NameOf(e) == name
  {
    hide EntryAt, Live;
  }

  /** The reader finds a file of this name with these contents. */
  ghost predicate FindsFile(disk: seq<Sector>, name: Name, c: seq<byte>)
  {
    exists k: nat, i: nat :: k < 320 && NamesFile(disk, k, name, i) && HoldsFile(disk, i, c)
  }

  /** Reading the blocks finds the files of this table, by name and contents, and no others. */
  ghost predicate ReadsAs(disk: seq<Sector>, fs: FileTable)
  {
    forall name, c :: FindsFile(disk, name, c) <==> name in fs && fs[name] == c
  }

  /** What an open of these blocks would load stands for the files that the reader finds in them. */
  lemma ReaderFinds(v: Vol, own: Owners)
    requires IsLoaded(v, v.disk) && Consistent(v, own) && |v.inodes| == 64 && DirOk(v)
    ensures ReadsAs(v.disk, Table(v))
  {
    hide IsLoaded, Consistent, DirOk, FindsFile, Table;
    forall name, c
      ensures FindsFile(v.disk, name, c) <==> name in Table(v) && Table(v)[name] == c
    {
      ReaderFindsName(v, own, name, c);
    }
  }

  lemma ReaderFindsName(v: Vol, own: Owners, name: Name, c: seq<byte>)
    requires IsLoaded(v, v.disk) && Consistent(v, own) && |v.inodes| == 64 && DirOk(v)
    ensures FindsFile(v.disk, name, c) <==> name in Table(v) && Table(v)[name] == c
  {
    hide IsLoaded, Consistent, DirOk, NamesFile, HoldsFile, Table, Named, Contents;
    if name in Table(v) && Table(v)[name] == c {
      LookupMeaning(v, own, name, 0, 0);
      var k, i := EntryOf(v, own, name);
      FoundIn(v, own, name, c, k, i);
    }
    forall k: nat, i: nat | k < 320 && NamesFile(v.disk, k, name, i) && HoldsFile(v.disk, i, c)
      ensures name in Table(v) && Table(v)[name] == c
    {
      FoundIn(v, own, name, c, k, i);
    }
  }

  /** The same for a flushed state: the flush has written what the reader needs. */
  lemma FlushedReads(v: Vol, own: Owners, mac: seq<Sector> -> Mac)
    requires OnDisk(v, mac) && Consistent(v, own) && |v.inodes| == 64 && DirOk(v)
    ensures ReadsAs(v.disk, Table(v))
  {
    hide OnDisk, Loaded, Consistent, DirOk, Table, ReadsAs, BitmapBlocks;
    LoadedIsFlushed(v, mac);
    ReaderFinds(v, own);
  }

  lemma EntryOf(v: Vol, own: Owners, name: Name) returns (k: nat, i: nat)
    requires |v.inodes| == MAX_INODES && DirOk(v) && Consistent(v, own) && Named(v, name)
    ensures EntryFor(v, k, name, i) && k < 320 && i < 64
    ensures name in Table(v) && Table(v)[name] == Contents(v, i)
  {
    hide Consistent, DirOk, EntryAt, Table, Contents;
    k :| Live(v, k) && NameAt(v, k) == name;
    i := InoAt(v, k);
    LookupMeaning(v, own, name, k, i);
  }

  /** An entry and the file of its inode, found by the reader, are a name and its contents in the table. */
  lemma FoundIn(v: Vol, own: Owners, name: Name, c: seq<byte>, k: nat, i: nat)
    requires IsLoaded(v, v.disk) && Consistent(v, own) && |v.inodes| == 64 && DirOk(v) && k < 320
    ensures NamesFile(v.disk, k, name, i) <==> EntryFor(v, k, name, i)
    ensures EntryFor(v, k, name, i) ==> name in Table(v)
    ensures EntryFor(v, k, name, i) ==> (HoldsFile(v.disk, i, c) <==> Table(v)[name] == c)
  {
    hide IsLoaded, Consistent, DirOk, NamesFile, HoldsFile, Table, Contents, EntryFor;
    EntryFound(v, own, k, name, i);
    LookupMeaning(v, own, name, k, i);
    if EntryFor(v, k, name, i) {
      FileSize(v, own, i);
      FileFound(v, own, i, c);
    }
  }
}
