/** format_volume: writes an empty file system. */
module Format {
  import opened Base
  import opened Codec
  import opened FileMap
  import opened Ownership
  import opened Growth
  import opened Files
  import opened FileSystem
  import opened Persist
  import opened Volume
  import opened Dirents
  import opened Open

  /** The volume sizes that format_volume accepts. */
  predicate FormatAccepts(volumeSize: nat)
  {
    && volumeSize != 0 && volumeSize % SECTOR_SIZE == 0
    && volumeSize / SECTOR_SIZE <= INVALID - 8
    && 3 + BitmapBlocks(volumeSize / SECTOR_SIZE) < volumeSize / SECTOR_SIZE
  }

  /** The bitmap of an empty volume: metadata and the root directory's block. */
  function FormatBits(total: nat): (bits: seq<bool>)
    ensures |bits| == BITS_PER_BLOCK * BitmapBlocks(total)
  {
    seq(BITS_PER_BLOCK * BitmapBlocks(total), b => b <= 3 + BitmapBlocks(total))
  }

  function RootInode(block: u32, now: u64): (n: Inode)
  {
    Inode(DIR, 0, 1, NoDirects()[0 := block], INVALID, INVALID, now)
  }

  function FormatNodes(block: u32, now: u64): (nodes: seq<Inode>)
    ensures |nodes| == MAX_INODES && nodes[0] == RootInode(block, now)
    ensures forall i :: 0 < i < MAX_INODES ==> nodes[i] == EmptyInode(FREE, 0)
  {
    seq(MAX_INODES, i => if i == 0 then RootInode(block, now) else EmptyInode(FREE, 0))
  }

  /** The state of a freshly formatted volume over these blocks. */
  ghost function Formatted(disk: seq<Sector>, now: u64, foreign: map<nat, Sector>): (v: Vol)
    requires 3 + BitmapBlocks(|disk|) < |disk| <= INT32_LIMIT
  {
    var n := BitmapBlocks(|disk|);
    Vol(|disk|, n, 3 + n, FormatBits(|disk|), seq(n, _ => false), |disk| - (3 + n) - 1, MAX_INODES - 1,
        FormatNodes(3 + n, now), disk, foreign)
  }

  /** The one block in use: the root directory's. */
  ghost function FormatOwners(total: nat): (own: Owners)
  {
    map[3 + BitmapBlocks(total) := Slot(0, Data(0))]
  }

  // ------------------------------------------------------ it is an empty file system

  lemma FormattedShape(disk: seq<Sector>, now: u64, foreign: map<nat, Sector>)
    requires 3 + BitmapBlocks(|disk|) < |disk| <= INT32_LIMIT
    ensures Shape(Formatted(disk, now, foreign)) && |disk| <= BITS_PER_BLOCK * BitmapBlocks(|disk|)
  {
    hide BitmapBlocks;
  }

  lemma FormattedRefs(disk: seq<Sector>, now: u64, foreign: map<nat, Sector>)
    requires 3 + BitmapBlocks(|disk|) < |disk| <= INT32_LIMIT
    ensures |Formatted(disk, now, foreign).inodes| == MAX_INODES
    ensures forall s :: ValidSlot(s) ==>
              Ref(Formatted(disk, now, foreign), s) == if s == Slot(0,
                  Data(0)) then 3 + BitmapBlocks(|disk|) else INVALID
  {
    hide BitmapBlocks, Ptr, FormatBits;
  }

  lemma FormattedFree(disk: seq<Sector>, now: u64, foreign: map<nat, Sector>)
    requires 3 + BitmapBlocks(|disk|) < |disk| <= INT32_LIMIT
    ensures var v := Formatted(disk, now, foreign); v.freeBlocks == |FreeSet(v)|
  {
    hide BitmapBlocks, FormatNodes, Interval;
    var v := Formatted(disk, now, foreign);
    FormattedShape(disk, now, foreign);
    assert FreeSet(v) == Interval(v.dataStart + 1, v.total);
  }

  lemma FormattedCore(disk: seq<Sector>, now: u64, foreign: map<nat, Sector>)
    requires 3 + BitmapBlocks(|disk|) < |disk| <= INT32_LIMIT
    ensures Core(Formatted(disk, now, foreign), FormatOwners(|disk|), {})
  {
    hide BitmapBlocks, Get, FormatNodes, FreeSet;
    FormattedShape(disk, now, foreign);
    FormattedRefs(disk, now, foreign);
    FormattedFree(disk, now, foreign);
    hide Ref;
  }

  lemma FormattedMapping(disk: seq<Sector>, now: u64, foreign: map<nat, Sector>)
    requires 3 + BitmapBlocks(|disk|) < |disk| <= INT32_LIMIT
    ensures Mapping(Formatted(disk, now, foreign), FormatOwners(|disk|))
  {
    hide BitmapBlocks, Get, FreeSet, Core, FormatBits;
    var v := Formatted(disk, now, foreign);
    FormattedRefs(disk, now, foreign);
    FormattedCore(disk, now, foreign);
    hide Ref;
    assert Mapped(v, 0) == {0};
    forall ino | 0 <= ino < MAX_INODES
      ensures CountedAt(v, ino)
    {
      if ino != 0 { assert Mapped(v, ino) == {}; }
    }
  }

  lemma FormattedInodes(disk: seq<Sector>, now: u64, foreign: map<nat, Sector>)
    requires 3 + BitmapBlocks(|disk|) < |disk| <= INT32_LIMIT
    ensures var v := Formatted(disk, now, foreign);
            Shaped(v) && v.freeInodes == |FreeInodeSet(v)| && forall i :: !IsFile(v, i)
  {
    hide BitmapBlocks, FormatBits, Interval;
    var v := Formatted(disk, now, foreign);
    assert FreeInodeSet(v) == Interval(1, MAX_INODES);
  }

  lemma FormattedDirectory(disk: seq<Sector>, now: u64, foreign: map<nat, Sector>)
    requires 3 + BitmapBlocks(|disk|) < |disk| <= INT32_LIMIT && disk[3 + BitmapBlocks(|disk|)] == EmptyDirBlock()
    ensures var v := Formatted(disk, now, foreign);
            && v.inodes[0].blockCount == 1 && (forall k :: !Live(v, k))
            && (forall k :: 0 <= k < DIRENTS_PER_BLOCK ==> EntryAt(v, k) == FreeDirent())
  {
    hide BitmapBlocks, Get, FormatBits, EmptyDirBlock, DecodeDirent, FreeDirent;
    var v := Formatted(disk, now, foreign);
    FormattedRefs(disk, now, foreign);
    assert Block(v, 0, 0) == EmptyDirBlock();
    hide Ref, Block;
    forall k | 0 <= k < DIRENTS_PER_BLOCK
      ensures EntryAt(v, k) == FreeDirent()
    {
      EmptyDirEntry(k);
    }
  }

  /** Formatting establishes every invariant, for the empty table of files. */
  lemma FormatGood(disk: seq<Sector>, now: u64, foreign: map<nat, Sector>)
    requires 3 + BitmapBlocks(|disk|) < |disk| <= INT32_LIMIT && disk[3 + BitmapBlocks(|disk|)] == EmptyDirBlock()
    ensures var v := Formatted(disk, now, foreign);
            Good(v, FormatOwners(|disk|)) && |v.inodes| == MAX_INODES && DirOk(v) && Table(v) == map[]
  {
    hide BitmapBlocks, Mapping, FormatBits, Formatted, EntryAt, FreeInodeSet, ByteAt, Phys, EmptyDirBlock;
    var v := Formatted(disk, now, foreign);
    FormattedShape(disk, now, foreign);
    FormattedMapping(disk, now, foreign);
    FormattedInodes(disk, now, foreign);
    FormattedDirectory(disk, now, foreign);
    EmptyDirectory(v);
  }

  lemma EmptyDirectory(v: Vol)
    requires |v.inodes| == MAX_INODES && (forall i :: !IsFile(v, i)) && (forall k :: !Live(v, k))
             && v.inodes[0].blockCount == 1
    requires forall k :: 0 <= k < DIRENTS_PER_BLOCK ==> EntryAt(v, k) == FreeDirent()
    ensures DirOk(v) && Table(v) == map[]
  {
    hide EntryAt;
  }

  // -------------------------------------------------------------- the method

  /** Writing block b of a volume changes that block of its plaintext and no other. */
  lemma PlainWrite(sectors: seq<Sector>, cipher: Cipher, start: nat, total: nat, b: nat, data: Sector)
    requires cipher.Inverse() && start + total <= |sectors| && b < total
    ensures Plain(sectors[start + b := cipher.enc(b, data)], cipher, start, total) == Plain(sectors, cipher, start,
            total)[b := data]
  {
  }

  /** Outside a volume's range the container is as before. */
  ghost predicate OnlyInside(before: seq<Sector>, after: seq<Sector>, start: nat, total: nat)
  {
    |after| == |before| && forall i :: 0 <= i < |before| && !(start <= i < start + total) ==> after[i] == before[i]
  }

  /** write_block_raw: encrypts and writes one block of a volume that is not mounted. */
  method WriteRaw(sectors: array<Sector>, cipher: Cipher, start: nat, total: nat, b: nat, data: Sector, faulty: bool)
    returns (ok: bool)
    requires cipher.Inverse() && start + total <= sectors.Length && b < total
    modifies sectors
    ensures ok ==> Plain(sectors[..], cipher, start, total) == old(Plain(sectors[..], cipher, start, total))[b := data]
    ensures OnlyInside(old(sectors[..]), sectors[..], start, total)
    ensures !faulty ==> ok
  {
    ok := true;
    if faulty {
      ok := *;
    }
    if ok {
      PlainWrite(sectors[..], cipher, start, total, b, data);
      ghost var before := sectors[..];
      sectors[start + b] := cipher.enc(b, data);
      assert sectors[..] == before[start + b := cipher.enc(b, data)];
    }
  }

  /** The first nb bitmap sectors and nj inode sectors, and the superblock, are written. */
  ghost predicate Formatting(disk: seq<Sector>, sb: Superblock, bits: seq<bool>, nodes: seq<Inode>, nb: nat, nj: nat)
  {
    && 3 + BitmapBlocks(|disk|) < |disk| && nb <= BitmapBlocks(|disk|) && nj <= INODE_BLOCKS
    && |bits| == BITS_PER_BLOCK * BitmapBlocks(|disk|) && |nodes| == MAX_INODES
    && disk[0] == EncodeSuperblock(sb)
    && (forall i :: 0 <= i < nb ==> disk[1 + i] == PackSector(bits, i))
    && (forall j :: 0 <= j < nj ==> disk[1 + BitmapBlocks(|disk|) + j] == EncodeInodes(nodes, j))
  }

  lemma FormatStart(disk: seq<Sector>, sb: Superblock, bits: seq<bool>, nodes: seq<Inode>)
    requires 3 + BitmapBlocks(|disk|) < |disk| && |bits| == BITS_PER_BLOCK * BitmapBlocks(|disk|)
             && |nodes| == MAX_INODES
    ensures Formatting(disk[0 := EncodeSuperblock(sb)], sb, bits, nodes, 0, 0)
  {
    hide BitmapBlocks, EncodeSuperblock;
  }

  lemma FormatBitmapStep(disk: seq<Sector>, sb: Superblock, bits: seq<bool>, nodes: seq<Inode>, nb: nat)
    requires Formatting(disk, sb, bits, nodes, nb, 0) && nb < BitmapBlocks(|disk|)
             && BITS_PER_BLOCK * (nb + 1) <= |bits|
    ensures Formatting(disk[1 + nb := PackSector(bits, nb)], sb, bits, nodes, nb + 1, 0)
  {
    hide BitmapBlocks, EncodeSuperblock, PackSector;
  }

  lemma FormatInodeStep(disk: seq<Sector>, sb: Superblock, bits: seq<bool>, nodes: seq<Inode>, nj: nat)
    requires Formatting(disk, sb, bits, nodes, BitmapBlocks(|disk|), nj) && nj < INODE_BLOCKS
    ensures Formatting(disk[1 + BitmapBlocks(|disk|) + nj := EncodeInodes(nodes, nj)], sb, bits, nodes,
            BitmapBlocks(|disk|), nj + 1)
  {
    hide BitmapBlocks, EncodeSuperblock, PackSector, EncodeInodes;
  }

  /** The blocks hold a freshly formatted volume with its metadata flushed. */
  ghost predicate IsFormatted(disk: seq<Sector>, mac: seq<Sector> -> Mac, now: u64)
  {
    && 3 + BitmapBlocks(|disk|) < |disk| <= INT32_LIMIT
    && disk[3 + BitmapBlocks(|disk|)] == EmptyDirBlock()
    && OnDisk(Formatted(disk, now, map[]), mac)
  }

  function FormatSuperblock(total: nat, mac: seq<Sector> -> Mac): (sb: Superblock)
    requires 3 + BitmapBlocks(total) < total <= INT32_LIMIT
  {
    MakeSuperblock(total, BitmapBlocks(total), total - (3 + BitmapBlocks(total)) - 1, MAX_INODES - 1,
                   mac(PackAll(FormatBits(total), BitmapBlocks(total))))
  }

  lemma FormatDone(disk: seq<Sector>, mac: seq<Sector> -> Mac, now: u64)
    requires 3 + BitmapBlocks(|disk|) < |disk| <= INT32_LIMIT
    requires Formatting(disk, FormatSuperblock(|disk|, mac), FormatBits(|disk|),
             FormatNodes(3 + BitmapBlocks(|disk|), now),
                        BitmapBlocks(|disk|), INODE_BLOCKS)
    ensures IsFormatted(disk[3 + BitmapBlocks(|disk|) := EmptyDirBlock()], mac, now)
  {
    hide BitmapBlocks, EncodeSuperblock, PackSector, EncodeInodes, FormatBits, FormatNodes, EmptyDirBlock, PackAll;
    var d := disk[3 + BitmapBlocks(|disk|) := EmptyDirBlock()];
    var v := Formatted(d, now, map[]);
    FormattedShape(d, now, map[]);
    GeometryBounds(v);
    assert SuperblockOf(v, mac) == FormatSuperblock(|disk|, mac);
    forall i | 0 <= i < v.bitmapBlocks
      ensures BitmapSectorOnDisk(v, i)
    {
      assert d[1 + i] == disk[1 + i];
    }
    forall j | 0 <= j < INODE_BLOCKS
      ensures d[1 + v.bitmapBlocks + j] == EncodeInodes(v.inodes, j)
    {
      assert d[1 + BitmapBlocks(|disk|) + j] == disk[1 + BitmapBlocks(|disk|) + j];
    }
  }

  /**
   * format_volume. For every size it accepts, the volume's blocks become the flushed image of an
   * empty file system; no sector outside the volume is written, whatever fails.
   */
  method FormatVolume(sectors: array<Sector>, cipher: Cipher, mac: seq<Sector> -> Mac, start: nat, volumeSize: nat,
                      now: u64, faulty: bool)
    returns (ok: bool)
    requires cipher.Inverse() && volumeSize / SECTOR_SIZE <= INT32_LIMIT
             && start + volumeSize / SECTOR_SIZE <= sectors.Length
    modifies sectors
    ensures OnlyInside(old(sectors[..]), sectors[..], start, volumeSize / SECTOR_SIZE)
    ensures ok ==> FormatAccepts(volumeSize)
    ensures ok ==> IsFormatted(Plain(sectors[..], cipher, start, volumeSize / SECTOR_SIZE), mac, now)
    ensures !faulty ==> (ok <==> FormatAccepts(volumeSize))
    ensures !FormatAccepts(volumeSize) ==> sectors[..] == old(sectors[..])
  {
    hide Plain, BitmapBlocks, EncodeSuperblock, PackSector, EncodeInodes, FormatBits, FormatNodes, EmptyDirBlock,
         PackAll, OnlyInside,
         Formatting, IsFormatted, MakeSuperblock;
    var total := volumeSize / SECTOR_SIZE;
    OnlyInsideNone(sectors[..], start, total);
    if !FormatAccepts(volumeSize) {
      return false;
    }
    var n := BitmapBlocks(total);
    var sb, bits, nodes := FormatSuperblock(total, mac), FormatBits(total), FormatNodes(3 + n, now);
    FormatStart(Plain(sectors[..], cipher, start, total), sb, bits, nodes);
    ok := WriteRaw(sectors, cipher, start, total, 0, EncodeSuperblock(sb), faulty);
    if !ok {
      return;
    }
    ok := FormatMetadata(sectors, cipher, start, total, sb, bits, nodes, faulty, old(sectors[..]));
    if !ok {
      return;
    }
    FormatDone(Plain(sectors[..], cipher, start, total), mac, now);
    ghost var before := sectors[..];
    ok := WriteRaw(sectors, cipher, start, total, 3 + n, EmptyDirBlock(), faulty);
    OnlyInsideTwice(old(sectors[..]), before, sectors[..], start, total);
  }

  lemma OnlyInsideNone(s: seq<Sector>, start: nat, total: nat)
    ensures OnlyInside(s, s, start, total)
  {
  }

  lemma OnlyInsideTwice(a: seq<Sector>, b: seq<Sector>, c: seq<Sector>, start: nat, total: nat)
    requires OnlyInside(a, b, start, total) && OnlyInside(b, c, start, total)
    ensures OnlyInside(a, c, start, total)
  {
  }

  lemma FormatRoom(disk: seq<Sector>, sb: Superblock, bits: seq<bool>, nodes: seq<Inode>, nb: nat, nj: nat)
    requires Formatting(disk, sb, bits, nodes, nb, nj)
    ensures 3 + BitmapBlocks(|disk|) < |disk| && |bits| == BITS_PER_BLOCK * BitmapBlocks(|disk|)
            && |nodes| == MAX_INODES
    ensures INODE_BLOCKS == 2
    ensures nb < BitmapBlocks(|disk|) ==> BITS_PER_BLOCK * (nb + 1) <= |bits|
  {
    hide BitmapBlocks, EncodeSuperblock, PackSector, EncodeInodes;
  }

  /** The bitmap and the inode table. */
  method FormatMetadata(sectors: array<Sector>, cipher: Cipher, start: nat, total: nat, sb: Superblock,
                        bits: seq<bool>, nodes: seq<Inode>,
                        faulty: bool, ghost first: seq<Sector>)
    returns (ok: bool)
    requires cipher.Inverse() && start + total <= sectors.Length && OnlyInside(first, sectors[..], start, total)
    requires Formatting(Plain(sectors[..], cipher, start, total), sb, bits, nodes, 0, 0)
    modifies sectors
    ensures OnlyInside(first, sectors[..], start, total)
    ensures ok ==>
              Formatting(Plain(sectors[..], cipher, start, total), sb, bits, nodes, BitmapBlocks(total), INODE_BLOCKS)
    ensures !faulty ==> ok
  {
    hide Plain, BitmapBlocks, EncodeSuperblock, PackSector, EncodeInodes, OnlyInside, Formatting;
    FormatRoom(Plain(sectors[..], cipher, start, total), sb, bits, nodes, 0, 0);
    var n := BitmapBlocks(total);
    ok := true;
    var i := 0;
    while i < n
      invariant i <= n && OnlyInside(first, sectors[..], start, total)
      invariant Formatting(Plain(sectors[..], cipher, start, total), sb, bits, nodes, i, 0)
    {
      ghost var before := sectors[..];
      FormatRoom(Plain(sectors[..], cipher, start, total), sb, bits, nodes, i, 0);
      FormatBitmapStep(Plain(sectors[..], cipher, start, total), sb, bits, nodes, i);
      ok := WriteRaw(sectors, cipher, start, total, 1 + i, PackSector(bits, i), faulty);
      OnlyInsideTwice(first, before, sectors[..], start, total);
      if !ok {
        return;
      }
      i := i + 1;
    }
    var j := 0;
    while j < INODE_BLOCKS
      invariant j <= INODE_BLOCKS && OnlyInside(first, sectors[..], start, total)
      invariant Formatting(Plain(sectors[..], cipher, start, total), sb, bits, nodes, n, j)
    {
      ghost var before := sectors[..];
      FormatInodeStep(Plain(sectors[..], cipher, start, total), sb, bits, nodes, j);
      ok := WriteRaw(sectors, cipher, start, total, 1 + n + j, EncodeInodes(nodes, j), faulty);
      OnlyInsideTwice(first, before, sectors[..], start, total);
      if !ok {
        return;
      }
      j := j + 1;
    }
  }

  /** A freshly formatted volume opens, as the empty file system. */
  lemma FormattedOpens(disk: seq<Sector>, mac: seq<Sector> -> Mac, now: u64, foreign: map<nat, Sector>)
    requires IsFormatted(disk, mac, now)
    ensures 3 + BitmapBlocks(|disk|) < |disk| <= INT32_LIMIT
    ensures Opens(disk, mac, foreign) && Loaded(disk, foreign) == Formatted(disk, now, foreign)
    ensures Good(Formatted(disk, now, foreign), FormatOwners(|disk|))
  {
    hide BitmapBlocks, Formatted, Loaded, Opens, Good, FormatOwners;
    FormatGood(disk, now, foreign);
    GoodSound(Formatted(disk, now, foreign), FormatOwners(|disk|));
    FormattedDisk(disk, now, foreign);
    OnDiskAnywhere(disk, mac, now, foreign);
    Persistence(Formatted(disk, now, foreign), FormatOwners(|disk|), mac);
  }

  lemma OnDiskAnywhere(disk: seq<Sector>, mac: seq<Sector> -> Mac, now: u64, foreign: map<nat, Sector>)
    requires IsFormatted(disk, mac, now)
    ensures 3 + BitmapBlocks(|disk|) < |disk| <= INT32_LIMIT && OnDisk(Formatted(disk, now, foreign), mac)
    ensures disk[3 + BitmapBlocks(|disk|)] == EmptyDirBlock()
  {
    hide BitmapBlocks, FormatBits, FormatNodes, EncodeSuperblock, EncodeInodes, PackSector, PackAll, EmptyDirBlock;
    var u, v := Formatted(disk, now, map[]), Formatted(disk, now, foreign);
    GeometryBounds(u);
    forall i | 0 <= i < v.bitmapBlocks
      ensures BitmapSectorOnDisk(v, i)
    {
      assert BitmapSectorOnDisk(u, i);
    }
  }

  lemma GoodSound(v: Vol, own: Owners)
    requires Good(v, own)
    ensures Sound(v, own) && Consistent(v, own)
  {
    hide Consistent, ZeroTail;
  }

  lemma FormattedDisk(disk: seq<Sector>, now: u64, foreign: map<nat, Sector>)
    requires 3 + BitmapBlocks(|disk|) < |disk| <= INT32_LIMIT
    ensures Formatted(disk, now, foreign).disk == disk && Formatted(disk, now, foreign).foreign == foreign
  {
    hide BitmapBlocks, FormatBits, FormatNodes;
  }
}
