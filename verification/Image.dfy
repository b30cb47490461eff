/**
 * Where everything stands on disk, byte by byte, as the packed C structures fix it. Nothing here goes
 * through an encoder on one side and its decoder on the other.
 */
module Image {
  import opened Base
  import opened Codec
  import opened FileMap
  import opened Ownership
  import opened Persist

  // ------------------------------------------------------------------- words

  /** Words are little-endian. */
  lemma LittleEndian(s: Sector, at: nat)
    requires at + 4 <= 4096
    ensures WordAt(s, at) == s[at] as int + 0x100 * s[at + 1] as int + 0x1_0000 * s[at + 2] as int
                             + 0x100_0000 * s[at + 3] as int
    ensures at + 8 <= 4096 ==> LongAt(s, at) == WordAt(s, at) + 0x1_0000_0000 * WordAt(s, at + 4)
  {
  }

  /** A pointer table is 1024 words in a row. */
  lemma PointerWords(p: Pointers, s: Sector, i: nat)
    requires i < 1024
    ensures WordAt(EncodePointers(p), 4 * i) == p[i] && DecodePointers(s)[i] == WordAt(s, 4 * i)
  {
    PointersRoundTrip(p);
  }

  /** Bit t of a byte, counted from the lowest. */
  predicate BitSet(b: byte, t: nat)
    requires t < 8
  {
    b / [1, 2, 4, 8, 16, 32, 64, 128][t] % 2 == 1
  }

  lemma BitOfByte(b: byte, t: nat)
    requires t < 8
    ensures NumberBit(b, t) <==> BitSet(b, t)
  {
    var n: nat := b;
    assert n / 2 / 2 == n / 4 && n / 4 / 2 == n / 8 && n / 8 / 2 == n / 16;
    assert n / 16 / 2 == n / 32 && n / 32 / 2 == n / 64 && n / 64 / 2 == n / 128;
    NumberBitSteps(n, t);
  }

  lemma NumberBitSteps(n: nat, t: nat)
    requires t < 8
    ensures t == 0 ==> (NumberBit(n, t) <==> n % 2 == 1)
    ensures t == 1 ==> (NumberBit(n, t) <==> n / 2 % 2 == 1)
    ensures t == 2 ==> (NumberBit(n, t) <==> n / 2 / 2 % 2 == 1)
    ensures t == 3 ==> (NumberBit(n, t) <==> n / 2 / 2 / 2 % 2 == 1)
    ensures t == 4 ==> (NumberBit(n, t) <==> n / 2 / 2 / 2 / 2 % 2 == 1)
    ensures t == 5 ==> (NumberBit(n, t) <==> n / 2 / 2 / 2 / 2 / 2 % 2 == 1)
    ensures t == 6 ==> (NumberBit(n, t) <==> n / 2 / 2 / 2 / 2 / 2 / 2 % 2 == 1)
    ensures t == 7 ==> (NumberBit(n, t) <==> n / 2 / 2 / 2 / 2 / 2 / 2 / 2 % 2 == 1)
  {
    if t > 0 { NumberBitSteps(n / 2, t - 1); }
  }

  /** The bit of block b is bit b % 8 of byte b / 8, the bytes running on from one bitmap sector to the next. */
  lemma BitmapByte(bits: seq<bool>, b: nat)
    requires b < |bits| && 32768 * (b / 32768 + 1) <= |bits|
    ensures bits[b] <==> BitSet(PackSector(bits, b / 32768)[b % 32768 / 8], b % 8)
  {
    hide PackSector, NumberBit, BitSet;
    var i, t := b / 32768, b % 32768;
    BitPlace(b);
    PackSectorRoundTrip(bits, i, t);
    BitOfByte(PackSector(bits, i)[t / 8], t % 8);
  }

  lemma BitPlace(b: nat)
    ensures 32768 * (b / 32768) + b % 32768 == b && b % 32768 % 8 == b % 8
  {
  }

  /** Reading a bitmap sector: bit t is bit t % 8 of byte t / 8. */
  lemma SectorBitByte(s: Sector, t: nat)
    requires t < 32768
    ensures SectorBit(s, t) <==> BitSet(s[t / 8], t % 8)
  {
    hide NumberBit, BitSet;
    BitOfByte(s[t / 8], t % 8);
  }

  // --------------------------------------------------------------- superblock

  /** The fields of the superblock that block 0 holds. */
  predicate SuperblockBytes(s: Sector, sb: Superblock)
  {
    && LongAt(s, 0) == sb.magic && WordAt(s, 8) == sb.blockSize && WordAt(s, 12) == sb.totalBlocks
    && WordAt(s, 16) == sb.inodeCount && WordAt(s, 20) == sb.bitmapStart && WordAt(s, 24) == sb.bitmapBlocks
    && WordAt(s, 28) == sb.inodeStart && WordAt(s, 32) == sb.inodeBlocks && WordAt(s, 36) == sb.dataStart
    && WordAt(s, 40) == sb.freeBlocks && WordAt(s, 44) == sb.freeInodes
    && s[48..80] == sb.bitmapHmac
  }

  lemma SuperblockFields(sb: Superblock, s: Sector)
    ensures SuperblockBytes(EncodeSuperblock(sb), sb) && SuperblockBytes(s, DecodeSuperblock(s))
    ensures forall k :: 80 <= k < 4096 ==> EncodeSuperblock(sb)[k] == 0
  {
    hide WordAt, LongAt;
    SuperblockRoundTrip(sb);
  }

  // --------------------------------------------------------------- inode table

  /** The fields of the 128-byte inode record that starts at a byte of a sector. */
  predicate InodeRecord(s: Sector, base: nat, n: Inode)
    requires base + 128 <= 4096
  {
    && WordAt(s, base) == n.kind && LongAt(s, base + 4) == n.size && WordAt(s, base + 12) == n.blockCount
    && (forall j :: 0 <= j < 20 ==> WordAt(s, base + 16 + 4 * j) == n.direct[j])
    && WordAt(s, base + 96) == n.indirect && WordAt(s, base + 100) == n.double && LongAt(s, base + 104) == n.mtime
  }

  lemma InodeFields(s: Sector, i: nat)
    requires i < 32
    ensures InodeRecord(s, 128 * i, DecodeInode(s, i))
  {
    hide WordAt, LongAt;
  }

  /** Inode i is record i % 32 of sector i / 32 of the inode table. */
  lemma InodePlace(inodes: seq<Inode>, i: nat)
    requires |inodes| == 64 && i < 64
    ensures InodeRecord(EncodeInodes(inodes, i / 32), 128 * (i % 32), inodes[i])
  {
    hide WordAt, LongAt, EncodeInodes, DecodeInode;
    InodeRoundTrip(inodes, i / 32, i % 32);
    InodeFields(EncodeInodes(inodes, i / 32), i % 32);
    assert INODES_PER_BLOCK * (i / 32) + i % 32 == i;
  }

  // ---------------------------------------------------------- directory entries

  /** The fields of the 256-byte directory entry that starts at a byte of a sector. */
  predicate DirentRecord(s: Sector, base: nat, e: Dirent)
    requires base + 256 <= 4096
  {
    WordAt(s, base) == e.inode && s[base + 4] == e.nameLen && s[base + 5..base + 256] == e.name
  }

  lemma DirentFields(s: Sector, i: nat, e: Dirent)
    requires i < 16
    ensures DirentRecord(s, 256 * i, DecodeDirent(s, i)) && DirentRecord(PutDirent(s, i, e), 256 * i, e)
  {
    hide WordAt, PutDirent;
    DirentRoundTrip(s, i, e);
  }

  // ------------------------------------------------------------ the flushed image

  /** Block 0 of a flushed volume: the geometry, the counters and the bitmap's HMAC. */
  ghost predicate FlushedSuper(v: Vol, mac: seq<Sector> -> Mac)
  {
    && |v.disk| == v.total && 3 + v.bitmapBlocks < v.total && v.bitmapBlocks == (v.total + 32767) / 32768
    && LongAt(v.disk[0], 0) == 0x44656e7946533033 && WordAt(v.disk[0], 8) == 4096
    && WordAt(v.disk[0], 12) == v.total && WordAt(v.disk[0], 16) == 64
    && WordAt(v.disk[0], 20) == 1 && WordAt(v.disk[0], 24) == v.bitmapBlocks
    && WordAt(v.disk[0], 28) == 1 + v.bitmapBlocks && WordAt(v.disk[0], 32) == 2
    && WordAt(v.disk[0], 36) == 3 + v.bitmapBlocks
    && WordAt(v.disk[0], 40) == v.freeBlocks && WordAt(v.disk[0], 44) == v.freeInodes
    && v.disk[0][48..80] == mac(v.disk[1..1 + v.bitmapBlocks])
  }

  /** The bit of block b is bit b % 8 of byte b / 8 of the blocks from 1 on. */
  ghost predicate FlushedBit(v: Vol, b: nat)
    requires b < |v.bitmap| && 1 + b / 32768 < |v.disk|
  {
    v.bitmap[b] <==> BitSet(v.disk[1 + b / 32768][b % 32768 / 8], b % 8)
  }

  /** The image that a flush leaves behind: superblock, bitmap and inode table, each in its place. */
  ghost predicate FlushedBytes(v: Vol, mac: seq<Sector> -> Mac)
  {
    && FlushedSuper(v, mac) && |v.inodes| == 64 && |v.bitmap| == 32768 * v.bitmapBlocks
    && (forall b :: 0 <= b < |v.bitmap| ==> FlushedBit(v, b))
    && (forall i :: 0 <= i < 64 ==>
          InodeRecord(v.disk[1 + v.bitmapBlocks + i / 32], 128 * (i % 32), v.inodes[i]))
  }

  lemma FlushedImage(v: Vol, mac: seq<Sector> -> Mac)
    requires OnDisk(v, mac)
    ensures FlushedBytes(v, mac)
  {
    hide WordAt, LongAt, EncodeSuperblock, PackSector, EncodeInodes, InodeRecord, BitmapBlocks, BitSet;
    GeometryBounds(v);
    FlushedSuperblock(v, mac);
    forall b | 0 <= b < |v.bitmap|
      ensures FlushedBit(v, b)
    {
      assert BitmapSectorOnDisk(v, b / 32768);
      BitmapByte(v.bitmap, b);
    }
    forall i | 0 <= i < 64
      ensures InodeRecord(v.disk[1 + v.bitmapBlocks + i / 32], 128 * (i % 32), v.inodes[i])
    {
      InodePlace(v.inodes, i);
    }
  }

  lemma FlushedSuperblock(v: Vol, mac: seq<Sector> -> Mac)
    requires OnDisk(v, mac)
    ensures FlushedSuper(v, mac)
  {
    hide WordAt, LongAt, EncodeSuperblock, PackSector, EncodeInodes, BitmapBlocks;
    GeometryBounds(v);
    BitmapSectors(v.total);
    SuperblockFields(SuperblockOf(v, mac), v.disk[0]);
    forall i | 0 <= i < v.bitmapBlocks
      ensures PackAll(v.bitmap, v.bitmapBlocks)[i] == v.disk[1..1 + v.bitmapBlocks][i]
    {
      assert BitmapSectorOnDisk(v, i);
    }
    assert PackAll(v.bitmap, v.bitmapBlocks) == v.disk[1..1 + v.bitmapBlocks];
  }

  /** 32768 blocks to a bitmap sector. */
  lemma BitmapSectors(total: nat)
    ensures BitmapBlocks(total) == (total + 32767) / 32768
  {
  }
}
