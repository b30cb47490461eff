/**
 * Which images are accepted and which image format writes, in the words and bytes of the blocks
 * themselves, without an encoder or a decoder.
 */
module Accepts {
  import opened Base
  import opened Codec
  import opened FileMap
  import opened Ownership
  import opened FileSystem
  import opened Persist
  import opened Image
  import opened Dirents
  import opened Scan
  import opened Open
  import opened Format

  // -------------------------------------------------------------- superblock

  /** What block 0 of a volume of this many blocks must hold; the counters, at 40 and 44, are only bounded. */
  predicate SuperblockAt(s: Sector, total: nat)
  {
    var n := (total + 32767) / 32768;
    && 3 + n < total <= 0xFFFF_FFFF
    && LongAt(s, 0) == 0x44656e7946533033 && WordAt(s, 8) == 4096 && WordAt(s, 12) == total && WordAt(s, 16) == 64
    && WordAt(s, 20) == 1 && WordAt(s, 24) == n && WordAt(s, 28) == 1 + n && WordAt(s, 32) == 2
    && WordAt(s, 36) == 3 + n
    && WordAt(s, 40) <= total - (3 + n) && WordAt(s, 44) < 64
  }

  lemma SuperblockAccepted(s: Sector, total: nat)
    ensures ValidateSuperblock(DecodeSuperblock(s), 4096 * total) <==> SuperblockAt(s, total)
  {
    hide WordAt, LongAt, BitmapBlocks;
    BitmapSectors(total);
    WholeBlocks(total);
  }

  lemma WholeBlocks(total: nat)
    ensures 4096 * total / SECTOR_SIZE == total && 4096 * total % SECTOR_SIZE == 0
    ensures 3 + (total + 32767) / 32768 < total ==> total >= 5
  {
  }

  /** An open reads the superblock and the HMAC of the bitmap's blocks, and then checks all metadata. */
  lemma OpensExactly(disk: seq<Sector>, mac: seq<Sector> -> Mac, foreign: map<nat, Sector>)
    ensures Opens(disk, mac, foreign) <==>
            && |disk| >= 5 && SuperblockAt(disk[0], |disk|)
            && mac(disk[1..1 + (|disk| + 32767) / 32768]) == disk[0][48..80]
            && 3 + BitmapBlocks(|disk|) < |disk| && Acceptable(Loaded(disk, foreign))
  {
    hide WordAt, LongAt, BitmapBlocks, Loaded, Acceptable, ValidateSuperblock;
    BitmapSectors(|disk|);
    WholeBlocks(|disk|);
    if |disk| >= 5 { SuperblockAccepted(disk[0], |disk|); }
  }

  // ----------------------------------------------------- inodes and entries

  /** An inode that points nowhere. */
  predicate PointsNowhere(n: Inode)
  {
    (forall j :: 0 <= j < 20 ==> n.direct[j] == 0xFFFF_FFFF) && n.indirect == 0xFFFF_FFFF == n.double
  }

  /** The root is a directory whose first 1 to 20 pointers are set; the others are free and empty, or files. */
  lemma InodeAccepted(n: Inode, i: nat)
    ensures InodeShape(n, i) <==>
            if i == 0 then
              && n.kind == 2 && n.size == 0 && n.indirect == 0xFFFF_FFFF == n.double && 1 <= n.blockCount <= 20
              && forall j :: 0 <= j < 20 ==> (n.direct[j] == 0xFFFF_FFFF <==> n.blockCount <= j)
            else
              || (n.kind == 0 && n.size == 0 && n.blockCount == 0 && PointsNowhere(n))
              || (n.kind == 1 && n.size <= 0x1_0000_0000)
  {
  }

  /** A name of 1 to 250 bytes, none of them 0 or a slash, that is not a dot name, followed by a 0. */
  predicate NamedAt(s: Sector, at: nat, len: nat)
    requires at + 251 <= 4096
  {
    && 1 <= len <= 250 && s[at + len] == 0
    && (forall j :: at <= j < at + len ==> s[j] != 0 && s[j] != 47)
    && !(len == 1 && s[at] == 46) && !(len == 2 && s[at] == 46 == s[at + 1])
  }

  /** Directory entry i: free with no name, or a file's inode with its name. */
  lemma DirentAccepted(s: Sector, i: nat)
    requires i < 16
    ensures ValidDirent(DecodeDirent(s, i)) <==>
            if WordAt(s, 256 * i) == 0xFFFF_FFFF then s[256 * i + 4] == 0
            else 0 < WordAt(s, 256 * i) < 64 && NamedAt(s, 256 * i + 5, s[256 * i + 4])
  {
    hide WordAt, ValidName;
    var e, at := DecodeDirent(s, i), 256 * i + 5;
    if e.nameLen <= 250 {
      assert NameOf(e) == s[at..at + e.nameLen];
      NameAccepted(s, at, e.nameLen);
    }
  }

  lemma NameAccepted(s: Sector, at: nat, len: nat)
    requires at + 251 <= 4096 && len <= 250
    ensures ValidName(s[at..at + len]) && s[at + len] == 0 <==> NamedAt(s, at, len)
  {
    var name := s[at..at + len];
    assert forall j :: at <= j < at + len ==> s[j] == name[j - at];
    assert len == 1 ==> name == [s[at]];
    assert len == 2 ==> name == [s[at], s[at + 1]];
  }

  // ------------------------------------------------------------------ format

  /** Whole blocks, at least 5 of them, and 8 fewer than words can count. */
  lemma FormatSizes(size: nat)
    ensures FormatAccepts(size) <==> size % 4096 == 0 && 5 <= size / 4096 <= 0xFFFF_FFF7
  {
    BitmapSectors(size / 4096);
  }

  /** The image of an empty file system: everything but what no one reads. */
  ghost predicate EmptyImage(disk: seq<Sector>, mac: seq<Sector> -> Mac, now: u64)
  {
    var total := |disk|;
    var n := (total + 32767) / 32768;
    && 3 + n < total <= 0xFFFF_FFFF && SuperblockAt(disk[0], total)
    && WordAt(disk[0], 40) == total - (3 + n) - 1 && WordAt(disk[0], 44) == 63
    && disk[0][48..80] == mac(disk[1..1 + n])
    && (forall b :: 0 <= b < 32768 * n ==> BitFormatted(disk, b, n))
    && RootRecord(disk[1 + n], 3 + n, now)
    && (forall i :: 0 < i < 64 ==> FreeRecord(disk[1 + n + i / 32], 128 * (i % 32)))
    && (forall k :: 0 <= k < 4096 ==> disk[3 + n][k] == if k % 256 < 4 then 255 else 0)
  }

  /** The metadata's blocks and the root directory's are in use. */
  ghost predicate BitFormatted(disk: seq<Sector>, b: nat, bitmapBlocks: nat)
  {
    1 + b / 32768 < |disk| && (BitSet(disk[1 + b / 32768][b % 32768 / 8], b % 8) <==> b <= 3 + bitmapBlocks)
  }

  function AllOnes(): (p: Directs)
  {
    seq(20, _ => 0xFFFF_FFFF)
  }

  /** The root directory's inode: one block, and no other pointer. */
  predicate RootRecord(s: Sector, block: u32, now: u64)
  {
    InodeRecord(s, 0, Inode(2, 0, 1, AllOnes()[0 := block], 0xFFFF_FFFF, 0xFFFF_FFFF, now))
  }

  /** The record of a free inode. */
  predicate FreeRecord(s: Sector, base: nat)
    requires base + 128 <= 4096
  {
    InodeRecord(s, base, Inode(0, 0, 0, AllOnes(), 0xFFFF_FFFF, 0xFFFF_FFFF, 0))
  }

  lemma FormattedImage(disk: seq<Sector>, mac: seq<Sector> -> Mac, now: u64)
    requires IsFormatted(disk, mac, now)
    ensures EmptyImage(disk, mac, now)
  {
    hide WordAt, LongAt, BitmapBlocks, FlushedBytes, FormatBits, FormatNodes, RootInode, RootRecord, FreeRecord,
         EmptyDirBlock, BitSet, OnDisk;
    var v := Formatted(disk, now, map[]);
    var n := v.bitmapBlocks;
    FlushedImage(v, mac);
    FormattedWords(v, mac, disk, now);
    BitmapSectors(|disk|);
    forall b | 0 <= b < 32768 * n
      ensures BitFormatted(disk, b, n)
    {
      FormattedBit(v, mac, disk, now, b);
    }
    FormattedRoot(v, mac, disk, now);
    forall i | 0 < i < 64
      ensures FreeRecord(disk[1 + n + i / 32], 128 * (i % 32))
    {
      FormattedFreeRecord(v, mac, disk, now, i);
    }
    EmptyEntries();
  }

  lemma FormattedWords(v: Vol, mac: seq<Sector> -> Mac, disk: seq<Sector>, now: u64)
    requires 3 + BitmapBlocks(|disk|) < |disk| <= INT32_LIMIT && v == Formatted(disk, now, map[])
    requires FlushedBytes(v, mac)
    ensures v.bitmapBlocks == (|disk| + 32767) / 32768 && SuperblockAt(disk[0], |disk|)
    ensures WordAt(disk[0], 40) == |disk| - (3 + v.bitmapBlocks) - 1 && WordAt(disk[0], 44) == 63
    ensures disk[0][48..80] == mac(disk[1..1 + v.bitmapBlocks])
  {
    hide WordAt, LongAt, BitmapBlocks, FlushedBit, InodeRecord;
  }

  lemma FormattedBit(v: Vol, mac: seq<Sector> -> Mac, disk: seq<Sector>, now: u64, b: nat)
    requires 3 + BitmapBlocks(|disk|) < |disk| <= INT32_LIMIT && v == Formatted(disk, now, map[])
    requires FlushedBytes(v, mac) && b < 32768 * v.bitmapBlocks
    ensures BitFormatted(disk, b, v.bitmapBlocks)
  {
    hide WordAt, LongAt, BitmapBlocks, InodeRecord, BitSet;
    assert FlushedBit(v, b);
  }

  lemma FormattedRoot(v: Vol, mac: seq<Sector> -> Mac, disk: seq<Sector>, now: u64)
    requires 3 + BitmapBlocks(|disk|) < |disk| <= INT32_LIMIT && v == Formatted(disk, now, map[])
    requires FlushedBytes(v, mac)
    ensures RootRecord(disk[1 + v.bitmapBlocks], 3 + v.bitmapBlocks, now)
  {
    hide WordAt, LongAt, BitmapBlocks, FlushedBit, InodeRecord;
    assert InodeRecord(disk[1 + v.bitmapBlocks + 0 / 32], 128 * (0 % 32), v.inodes[0]);
    assert NoDirects() == AllOnes();
  }

  lemma FormattedFreeRecord(v: Vol, mac: seq<Sector> -> Mac, disk: seq<Sector>, now: u64, i: nat)
    requires 3 + BitmapBlocks(|disk|) < |disk| <= INT32_LIMIT && v == Formatted(disk, now, map[])
    requires FlushedBytes(v, mac) && 0 < i < 64
    ensures 1 + v.bitmapBlocks + i / 32 < |disk|
    ensures FreeRecord(disk[1 + v.bitmapBlocks + i / 32], 128 * (i % 32))
  {
    hide WordAt, LongAt, BitmapBlocks, FlushedBit, InodeRecord;
    assert NoDirects() == AllOnes();
    assert InodeRecord(disk[1 + v.bitmapBlocks + i / 32], 128 * (i % 32), v.inodes[i]);
  }

  lemma EmptyEntries()
    ensures forall k :: 0 <= k < 4096 ==> EmptyDirBlock()[k] == if k % 256 < 4 then 255 else 0
  {
  }
}
