/**
 * Byte layouts of the packed on-disk structures: little-endian words, pointer
 * tables, bitmap sectors, the inode table, directory blocks and the superblock.
 * The rest of the model only relies on the round trips proved here.
 */
module Codec {
  import opened Base

  // ---------------------------------------------------------------- words

  /** Byte k of the little-endian image of x. */
  function WordByte(x: u32, k: nat): (b: byte)
    requires k < 4
  {
    if k == 0 then x % 256
    else if k == 1 then x / 256 % 256
    else if k == 2 then x / 65536 % 256
    else x / 16777216
  }

  /** The 32-bit word stored at byte offset `at`. */
  function WordAt(s: Sector, at: nat): (x: u32)
    requires at + 4 <= SECTOR_SIZE
  {
    s[at] as int + 256 * s[at + 1] as int + 65536 * s[at + 2] as int + 16777216 * s[at + 3] as int
  }

  lemma WordRoundTrip(s: Sector, at: nat, x: u32)
    requires at + 4 <= SECTOR_SIZE
    requires forall k :: 0 <= k < 4 ==> s[at + k] == WordByte(x, k)
    ensures WordAt(s, at) == x
  {
    assert s[at + 0] == WordByte(x, 0);
    assert s[at + 1] == WordByte(x, 1);
    assert s[at + 2] == WordByte(x, 2);
    assert s[at + 3] == WordByte(x, 3);
    WordDigits(x);
  }

  lemma WordDigits(x: u32)
    ensures x == WordByte(x, 0) as int + 256 * WordByte(x, 1) as int + 65536 * WordByte(x, 2) as int +
                 16777216 * WordByte(x, 3) as int
  {
    var a := x / 256;
    var b := a / 256;
    assert b == x / 65536;
    assert b / 256 == x / 16777216;
    assert x == 256 * a + x % 256;
    assert a == 256 * b + a % 256;
    assert b == 256 * (b / 256) + b % 256;
  }

  function Low(x: u64): (w: u32) { x % 0x1_0000_0000 }

  function High(x: u64): (w: u32) { x / 0x1_0000_0000 }

  /** Byte k of the little-endian image of a 64-bit word. */
  function LongByte(x: u64, k: nat): (b: byte)
    requires k < 8
  {
    if k < 4 then WordByte(Low(x), k) else WordByte(High(x), k - 4)
  }

  function LongAt(s: Sector, at: nat): (x: u64)
    requires at + 8 <= SECTOR_SIZE
  {
    WordAt(s, at) + 0x1_0000_0000 * WordAt(s, at + 4)
  }

  lemma LongRoundTrip(s: Sector, at: nat, x: u64)
    requires at + 8 <= SECTOR_SIZE
    requires forall k :: 0 <= k < 8 ==> s[at + k] == LongByte(x, k)
    ensures LongAt(s, at) == x
  {
    forall k | 0 <= k < 4
      ensures s[at + k] == WordByte(Low(x), k) && s[at + 4 + k] == WordByte(High(x), k)
    {
      assert s[at + k] == LongByte(x, k);
      assert s[at + (4 + k)] == LongByte(x, 4 + k);
    }
    WordRoundTrip(s, at, Low(x));
    WordRoundTrip(s, at + 4, High(x));
  }

  // ------------------------------------------------------- pointer tables

  /** The contents of a pointer table: 1024 block numbers. */
  type Pointers = p: seq<u32> | |p| == POINTERS_PER_BLOCK witness seq(POINTERS_PER_BLOCK, _ => INVALID)

  function NoPointers(): (p: Pointers)
    ensures forall i :: 0 <= i < POINTERS_PER_BLOCK ==> p[i] == INVALID
  {
    seq(POINTERS_PER_BLOCK, _ => INVALID)
  }

  function Ptr(s: Sector, i: nat): (p: u32)
    requires i < POINTERS_PER_BLOCK
  {
    WordAt(s, 4 * i)
  }

  function DecodePointers(s: Sector): (p: Pointers)
    ensures forall i :: 0 <= i < POINTERS_PER_BLOCK ==> p[i] == Ptr(s, i)
  {
    seq(POINTERS_PER_BLOCK, i requires 0 <= i < POINTERS_PER_BLOCK => Ptr(s, i))
  }

  function EncodePointers(p: Pointers): (s: Sector)
  {
    seq(SECTOR_SIZE, k requires 0 <= k < SECTOR_SIZE => WordByte(p[k / 4], k % 4))
  }

  lemma PointersRoundTrip(p: Pointers)
    ensures forall i :: 0 <= i < POINTERS_PER_BLOCK ==> Ptr(EncodePointers(p), i) == p[i]
    ensures DecodePointers(EncodePointers(p)) == p
  {
    var s := EncodePointers(p);
    forall i | 0 <= i < POINTERS_PER_BLOCK
      ensures Ptr(s, i) == p[i]
    {
      forall k | 0 <= k < 4
        ensures s[4 * i + k] == WordByte(p[i], k)
      {
        assert (4 * i + k) / 4 == i && (4 * i + k) % 4 == k;
      }
      WordRoundTrip(s, 4 * i, p[i]);
    }
  }

  lemma WordBytes(s: Sector, at: nat, k: nat)
    requires at + 4 <= SECTOR_SIZE && k < 4
    ensures WordByte(WordAt(s, at), k) == s[at + k]
  {
    Digits(s[at], s[at + 1], s[at + 2], s[at + 3]);
  }

  lemma Digits(a: byte, b: byte, c: byte, d: byte)
    ensures var x := a as int + 256 * b as int + 65536 * c as int + 16777216 * d as int;
            x % 256 == a && x / 256 % 256 == b && x / 65536 % 256 == c && x / 16777216 == d
  {
    var y := b as int + 256 * c as int + 65536 * d as int;
    var x := a as int + 256 * y;
    assert x / 256 == y;
    var z := c as int + 256 * d as int;
    assert y == b as int + 256 * z;
    DigitShift(x, y, a);
    DigitShift(y, z, b);
    DigitShift(z, d, c);
    assert x / 65536 == x / 256 / 256;
    assert x / 16777216 == x / 256 / 256 / 256;
  }

  lemma DigitShift(x: nat, y: nat, a: byte)
    requires x == a as int + 256 * y
    ensures x / 256 == y && x % 256 == a
  {
  }

  /** Every sector is the image of the pointer table it decodes to. */
  lemma SectorRoundTrip(s: Sector)
    ensures EncodePointers(DecodePointers(s)) == s
  {
    hide WordAt, WordByte;
    forall k | 0 <= k < SECTOR_SIZE
      ensures EncodePointers(DecodePointers(s))[k] == s[k]
    {
      WordBytes(s, 4 * (k / 4), k % 4);
    }
  }

  // --------------------------------------------------------------- bitmap

  function Exp2(n: nat): (r: nat)
    ensures r >= 1
  {
    if n == 0 then 1 else 2 * Exp2(n - 1)
  }

  /** n bits packed into a number, lowest block number in the lowest bit. */
  function PackBits(bits: seq<bool>, at: nat, n: nat): (b: nat)
    requires at + n <= |bits|
    ensures b < Exp2(n)
    decreases n
  {
    if n == 0 then 0 else (if bits[at] then 1 else 0) + 2 * PackBits(bits, at + 1, n - 1)
  }

  function PackByte(bits: seq<bool>, at: nat): (b: byte)
    requires at + 8 <= |bits|
  {
    assert Exp2(8) == 256 by { assert Exp2(4) == 16; }
    PackBits(bits, at, 8)
  }

  /** Bit t of a number, as the mask test b & (1 << t) reads it. */
  predicate NumberBit(b: nat, t: nat)
  {
    if t == 0 then b % 2 == 1 else NumberBit(b / 2, t - 1)
  }

  lemma {:induction false} PackBitsRoundTrip(bits: seq<bool>, at: nat, n: nat, t: nat)
    requires at + n <= |bits| && t < n
    ensures NumberBit(PackBits(bits, at, n), t) == bits[at + t]
    decreases n
  {
    var rest := PackBits(bits, at + 1, n - 1);
    assert PackBits(bits, at, n) / 2 == rest;
    if t > 0 {
      PackBitsRoundTrip(bits, at + 1, n - 1, t - 1);
    }
  }

  lemma {:induction false} PackBitsFrame(bits: seq<bool>, bits': seq<bool>, at: nat, n: nat)
    requires at + n <= |bits| == |bits'|
    requires forall b :: at <= b < at + n ==> bits[b] == bits'[b]
    ensures PackBits(bits, at, n) == PackBits(bits', at, n)
    decreases n
  {
    if n > 0 {
      PackBitsFrame(bits, bits', at + 1, n - 1);
    }
  }

  /** The i-th on-disk sector of an in-memory bitmap. */
  function PackSector(bits: seq<bool>, i: nat): (s: Sector)
    requires BITS_PER_BLOCK * (i + 1) <= |bits|
  {
    seq(SECTOR_SIZE, k requires 0 <= k < SECTOR_SIZE => PackByte(bits, BITS_PER_BLOCK * i + 8 * k))
  }

  predicate SectorBit(s: Sector, t: nat)
    requires t < BITS_PER_BLOCK
  {
    NumberBit(s[t / 8], t % 8)
  }

  lemma PackSectorRoundTrip(bits: seq<bool>, i: nat, t: nat)
    requires BITS_PER_BLOCK * (i + 1) <= |bits| && t < BITS_PER_BLOCK
    ensures SectorBit(PackSector(bits, i), t) == bits[BITS_PER_BLOCK * i + t]
  {
    PackBitsRoundTrip(bits, BITS_PER_BLOCK * i + 8 * (t / 8), 8, t % 8);
    assert 8 * (t / 8) + t % 8 == t;
  }

  lemma {:induction false} PackBitsOf(bits: seq<bool>, at: nat, n: nat, b: nat)
    requires at + n <= |bits| && b < Exp2(n) && forall t :: 0 <= t < n ==> bits[at + t] == NumberBit(b, t)
    ensures PackBits(bits, at, n) == b
    decreases n
  {
    if n > 0 {
      assert bits[at + 0] == NumberBit(b, 0);
      forall t | 0 <= t < n - 1
        ensures bits[at + 1 + t] == NumberBit(b / 2, t)
      {
        assert bits[at + (t + 1)] == NumberBit(b, t + 1);
      }
      PackBitsOf(bits, at + 1, n - 1, b / 2);
    }
  }

  /** Packing the bits of a sector gives the sector back. */
  lemma SectorPackRoundTrip(s: Sector, bits: seq<bool>, i: nat)
    requires BITS_PER_BLOCK * (i + 1) <= |bits|
    requires forall t :: 0 <= t < BITS_PER_BLOCK ==> bits[BITS_PER_BLOCK * i + t] == SectorBit(s, t)
    ensures PackSector(bits, i) == s
  {
    hide PackBits, NumberBit;
    assert Exp2(8) == 256 by { assert Exp2(4) == 16; }
    forall k | 0 <= k < SECTOR_SIZE
      ensures PackSector(bits, i)[k] == s[k]
    {
      forall t | 0 <= t < 8
        ensures bits[BITS_PER_BLOCK * i + 8 * k + t] == NumberBit(s[k], t)
      {
        assert bits[BITS_PER_BLOCK * i + (8 * k + t)] == SectorBit(s, 8 * k + t);
        assert (8 * k + t) / 8 == k && (8 * k + t) % 8 == t;
      }
      PackBitsOf(bits, BITS_PER_BLOCK * i + 8 * k, 8, s[k]);
    }
  }

  /** A sector of the packed bitmap depends on the bits it stores only. */
  lemma PackSectorFrame(bits: seq<bool>, bits': seq<bool>, i: nat)
    requires |bits| == |bits'| && BITS_PER_BLOCK * (i + 1) <= |bits|
    requires forall b :: BITS_PER_BLOCK * i <= b < BITS_PER_BLOCK * (i + 1) ==> bits[b] == bits'[b]
    ensures PackSector(bits, i) == PackSector(bits', i)
  {
    hide PackBits;
    forall k | 0 <= k < SECTOR_SIZE
      ensures PackSector(bits, i)[k] == PackSector(bits', i)[k]
    {
      PackBitsFrame(bits, bits', BITS_PER_BLOCK * i + 8 * k, 8);
    }
  }

  // --------------------------------------------------------------- inodes

  /** DENYFS_ITYPE_FREE, DENYFS_ITYPE_FILE and DENYFS_ITYPE_DIR. */
  const FREE: u32 := 0
  const FILE: u32 := 1
  const DIR: u32 := 2

  type Directs = p: seq<u32> | |p| == DIRECT_BLOCKS witness seq(DIRECT_BLOCKS, _ => INVALID)

  function NoDirects(): (p: Directs)
    ensures forall i :: 0 <= i < DIRECT_BLOCKS ==> p[i] == INVALID
  {
    seq(DIRECT_BLOCKS, _ => INVALID)
  }

  datatype Inode = Inode(kind: u32, size: u64, blockCount: u32, direct: Directs,
                         indirect: u32, double: u32, mtime: u64)

  /** A file that maps no block. */
  function EmptyInode(kind: u32, mtime: u64): (n: Inode)
  {
    Inode(kind, 0, 0, NoDirects(), INVALID, INVALID, mtime)
  }

  /** Byte `at` of the 128-byte packed inode record. */
  function InodeByte(n: Inode, at: nat): (b: byte)
    requires at < INODE_SIZE
  {
    if at < 4 then WordByte(n.kind, at)
    else if at < 12 then LongByte(n.size, at - 4)
    else if at < 16 then WordByte(n.blockCount, at - 12)
    else if at < 96 then WordByte(n.direct[(at - 16) / 4], (at - 16) % 4)
    else if at < 100 then WordByte(n.indirect, at - 96)
    else if at < 104 then WordByte(n.double, at - 100)
    else if at < 112 then LongByte(n.mtime, at - 104)
    else 0
  }

  function DecodeDirects(s: Sector, at: nat): (p: Directs)
    requires at + 4 * DIRECT_BLOCKS <= SECTOR_SIZE
  {
    seq(DIRECT_BLOCKS, j requires 0 <= j < DIRECT_BLOCKS => WordAt(s, at + 4 * j))
  }

  function DecodeInode(s: Sector, i: nat): (n: Inode)
    requires i < INODES_PER_BLOCK
  {
    Inode(WordAt(s, INODE_SIZE * i), LongAt(s, INODE_SIZE * i + 4), WordAt(s, INODE_SIZE * i + 12),
          DecodeDirects(s, INODE_SIZE * i + 16),
          WordAt(s, INODE_SIZE * i + 96), WordAt(s, INODE_SIZE * i + 100), LongAt(s, INODE_SIZE * i + 104))
  }

  /** The j-th on-disk sector of the inode table. */
  function EncodeInodes(inodes: seq<Inode>, j: nat): (s: Sector)
    requires |inodes| == MAX_INODES && j < INODE_BLOCKS
  {
    seq(SECTOR_SIZE, k requires 0 <= k < SECTOR_SIZE =>
        InodeByte(inodes[INODES_PER_BLOCK * j + k / INODE_SIZE], k % INODE_SIZE))
  }

  lemma InodeBytes(inodes: seq<Inode>, j: nat, i: nat, at: nat)
    requires |inodes| == MAX_INODES && j < INODE_BLOCKS && i < INODES_PER_BLOCK && at < INODE_SIZE
    ensures EncodeInodes(inodes, j)[INODE_SIZE * i + at] == InodeByte(inodes[INODES_PER_BLOCK * j + i], at)
  {
    var k := INODE_SIZE * i + at;
    assert k / INODE_SIZE == i && k % INODE_SIZE == at;
  }

  lemma InodeRoundTrip(inodes: seq<Inode>, j: nat, i: nat)
    requires |inodes| == MAX_INODES && j < INODE_BLOCKS && i < INODES_PER_BLOCK
    ensures DecodeInode(EncodeInodes(inodes, j), i) == inodes[INODES_PER_BLOCK * j + i]
  {
    var s := EncodeInodes(inodes, j);
    var n := inodes[INODES_PER_BLOCK * j + i];
    var base := INODE_SIZE * i;
    forall at: nat | at < INODE_SIZE
      ensures s[base + at] == InodeByte(n, at)
    {
      InodeBytes(inodes, j, i, at);
    }
    InodeFieldsRoundTrip(s, n, i);
  }

  lemma InodeFieldsRoundTrip(s: Sector, n: Inode, i: nat)
    requires i < INODES_PER_BLOCK
    requires forall at: nat {:trigger InodeByte(n, at)} :: at < INODE_SIZE ==>
              s[INODE_SIZE * i + at] == InodeByte(n, at)
    ensures DecodeInode(s, i) == n
  {
    var base := INODE_SIZE * i;
    forall k | 0 <= k < 4
      ensures s[base + k] == WordByte(n.kind, k)
      ensures s[base + 12 + k] == WordByte(n.blockCount, k)
      ensures s[base + 96 + k] == WordByte(n.indirect, k)
      ensures s[base + 100 + k] == WordByte(n.double, k)
    {
      assert InodeByte(n, k) == WordByte(n.kind, k);
      assert InodeByte(n, 12 + k) == WordByte(n.blockCount, k);
      assert InodeByte(n, 96 + k) == WordByte(n.indirect, k);
      assert InodeByte(n, 100 + k) == WordByte(n.double, k);
    }
    forall k | 0 <= k < 8
      ensures s[base + 4 + k] == LongByte(n.size, k)
      ensures s[base + 104 + k] == LongByte(n.mtime, k)
    {
      assert InodeByte(n, 4 + k) == LongByte(n.size, k);
      assert InodeByte(n, 104 + k) == LongByte(n.mtime, k);
    }
    WordRoundTrip(s, base, n.kind);
    WordRoundTrip(s, base + 12, n.blockCount);
    WordRoundTrip(s, base + 96, n.indirect);
    WordRoundTrip(s, base + 100, n.double);
    LongRoundTrip(s, base + 4, n.size);
    LongRoundTrip(s, base + 104, n.mtime);
    forall j | 0 <= j < DIRECT_BLOCKS
      ensures WordAt(s, base + 16 + 4 * j) == n.direct[j]
    {
      DirectRoundTrip(s, n, i, j);
    }
    assert DecodeInode(s, i).direct == n.direct;
  }

  lemma DirectRoundTrip(s: Sector, n: Inode, i: nat, j: nat)
    requires i < INODES_PER_BLOCK && j < DIRECT_BLOCKS
    requires forall at: nat {:trigger InodeByte(n, at)} :: at < INODE_SIZE ==>
              s[INODE_SIZE * i + at] == InodeByte(n, at)
    ensures WordAt(s, INODE_SIZE * i + 16 + 4 * j) == n.direct[j]
  {
    var base := INODE_SIZE * i + 16 + 4 * j;
    forall k | 0 <= k < 4
      ensures s[base + k] == WordByte(n.direct[j], k)
    {
      var at := 16 + 4 * j + k;
      assert (at - 16) / 4 == j && (at - 16) % 4 == k;
      assert InodeByte(n, at) == WordByte(n.direct[j], k);
    }
    WordRoundTrip(s, base, n.direct[j]);
  }

  // ---------------------------------------------------- directory entries

  type NameField = s: seq<byte> | |s| == MAX_NAME_LEN witness seq(MAX_NAME_LEN, _ => 0)

  datatype Dirent = Dirent(inode: u32, nameLen: byte, name: NameField)

  function DecodeDirent(s: Sector, i: nat): (e: Dirent)
    requires i < DIRENTS_PER_BLOCK
  {
    Dirent(WordAt(s, DIRENT_SIZE * i), s[DIRENT_SIZE * i + 4], s[DIRENT_SIZE * i + 5..DIRENT_SIZE * (i + 1)])
  }

  function DirentByte(e: Dirent, at: nat): (b: byte)
    requires at < DIRENT_SIZE
  {
    if at < 4 then WordByte(e.inode, at) else if at == 4 then e.nameLen else e.name[at - 5]
  }

  /** The block with entry i overwritten in place. */
  function PutDirent(s: Sector, i: nat, e: Dirent): (s': Sector)
    requires i < DIRENTS_PER_BLOCK
  {
    seq(SECTOR_SIZE, k requires 0 <= k < SECTOR_SIZE =>
        if k / DIRENT_SIZE == i then DirentByte(e, k % DIRENT_SIZE) else s[k])
  }

  lemma DirentRoundTrip(s: Sector, i: nat, e: Dirent)
    requires i < DIRENTS_PER_BLOCK
    ensures DecodeDirent(PutDirent(s, i, e), i) == e
  {
    var s' := PutDirent(s, i, e);
    var base := DIRENT_SIZE * i;
    forall at | 0 <= at < DIRENT_SIZE
      ensures s'[base + at] == DirentByte(e, at)
    {
      assert (base + at) / DIRENT_SIZE == i && (base + at) % DIRENT_SIZE == at;
    }
    forall k | 0 <= k < 4
      ensures s'[base + k] == WordByte(e.inode, k)
    {
      assert s'[base + k] == DirentByte(e, k);
    }
    WordRoundTrip(s', base, e.inode);
    assert s'[base + 4] == DirentByte(e, 4);
    forall k | 0 <= k < MAX_NAME_LEN
      ensures s'[base + 5..base + DIRENT_SIZE][k] == e.name[k]
    {
      assert s'[base + (5 + k)] == DirentByte(e, 5 + k);
    }
  }

  lemma DirentFrame(s: Sector, i: nat, e: Dirent, j: nat)
    requires i < DIRENTS_PER_BLOCK && j < DIRENTS_PER_BLOCK && i != j
    ensures DecodeDirent(PutDirent(s, i, e), j) == DecodeDirent(s, j)
  {
    var s' := PutDirent(s, i, e);
    var base := DIRENT_SIZE * j;
    forall k | base <= k < base + DIRENT_SIZE
      ensures s'[k] == s[k]
    {
      assert k / DIRENT_SIZE == j;
    }
    assert s'[base + 5..base + DIRENT_SIZE] == s[base + 5..base + DIRENT_SIZE];
  }

  // ------------------------------------------------------------ superblock

  type Mac = s: seq<byte> | |s| == 32 witness seq(32, _ => 0)

  datatype Superblock = Superblock(magic: u64, blockSize: u32, totalBlocks: u32, inodeCount: u32,
                                   bitmapStart: u32, bitmapBlocks: u32, inodeStart: u32, inodeBlocks: u32,
                                   dataStart: u32, freeBlocks: u32, freeInodes: u32, bitmapHmac: Mac)

  /** The ten 32-bit fields that follow the magic number, in order. */
  function SuperblockWord(sb: Superblock, w: nat): (x: u32)
    requires w < 10
  {
    if w == 0 then sb.blockSize else if w == 1 then sb.totalBlocks else if w == 2 then sb.inodeCount
    else if w == 3 then sb.bitmapStart else if w == 4 then sb.bitmapBlocks else if w == 5 then sb.inodeStart
    else if w == 6 then sb.inodeBlocks else if w == 7 then sb.dataStart else if w == 8 then sb.freeBlocks
    else sb.freeInodes
  }

  function EncodeSuperblock(sb: Superblock): (s: Sector)
  {
    seq(SECTOR_SIZE, k requires 0 <= k < SECTOR_SIZE =>
        if k < 8 then LongByte(sb.magic, k)
        else if k < 48 then WordByte(SuperblockWord(sb, (k - 8) / 4), (k - 8) % 4)
        else if k < 80 then sb.bitmapHmac[k - 48]
        else 0)
  }

  function DecodeSuperblock(s: Sector): (sb: Superblock)
  {
    Superblock(LongAt(s, 0), WordAt(s, 8), WordAt(s, 12), WordAt(s, 16), WordAt(s, 20), WordAt(s, 24),
               WordAt(s, 28), WordAt(s, 32), WordAt(s, 36), WordAt(s, 40), WordAt(s, 44), s[48..80])
  }

  lemma SuperblockWordRoundTrip(sb: Superblock, w: nat)
    requires w < 10
    ensures WordAt(EncodeSuperblock(sb), 8 + 4 * w) == SuperblockWord(sb, w)
  {
    var s := EncodeSuperblock(sb);
    forall k | 0 <= k < 4
      ensures s[8 + 4 * w + k] == WordByte(SuperblockWord(sb, w), k)
    {
      var at := 8 + 4 * w + k;
      assert (at - 8) / 4 == w && (at - 8) % 4 == k;
    }
    WordRoundTrip(s, 8 + 4 * w, SuperblockWord(sb, w));
  }

  lemma SuperblockRoundTrip(sb: Superblock)
    ensures DecodeSuperblock(EncodeSuperblock(sb)) == sb
  {
    hide WordAt;
    var s := EncodeSuperblock(sb);
    LongRoundTrip(s, 0, sb.magic);
    SuperblockWordRoundTrip(sb, 0);
    SuperblockWordRoundTrip(sb, 1);
    SuperblockWordRoundTrip(sb, 2);
    SuperblockWordRoundTrip(sb, 3);
    SuperblockWordRoundTrip(sb, 4);
    SuperblockWordRoundTrip(sb, 5);
    SuperblockWordRoundTrip(sb, 6);
    SuperblockWordRoundTrip(sb, 7);
    SuperblockWordRoundTrip(sb, 8);
    SuperblockWordRoundTrip(sb, 9);
    assert s[48..80] == sb.bitmapHmac;
  }
}
