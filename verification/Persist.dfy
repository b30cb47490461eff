/** The metadata image on disk, and how writes and flushes keep it in step with memory. */
module Persist {
  import opened Base
  import opened Codec
  import opened FileMap
  import opened Ownership
  import opened Frames
  import opened Growth

  /** The packed bitmap, sector by sector. */
  function PackAll(bits: seq<bool>, n: nat): (s: seq<Sector>)
    requires BITS_PER_BLOCK * n <= |bits|
  {
    seq(n, i requires 0 <= i < n => PackSector(bits, i))
  }

  function MakeSuperblock(total: u32, bitmapBlocks: u32, freeBlocks: u32, freeInodes: u32, hmac: Mac): (sb: Superblock)
    requires bitmapBlocks + 1 + INODE_BLOCKS <= INVALID
  {
    Superblock(SB_MAGIC, SECTOR_SIZE, total, MAX_INODES, 1, bitmapBlocks, 1 + bitmapBlocks, INODE_BLOCKS,
               1 + bitmapBlocks + INODE_BLOCKS, freeBlocks, freeInodes, hmac)
  }

  lemma GeometryBounds(v: Vol)
    requires Shape(v)
    ensures v.bitmapBlocks + 1 + INODE_BLOCKS == v.dataStart < v.total == |v.disk| <= INVALID
    ensures |v.bitmap| == BITS_PER_BLOCK * v.bitmapBlocks && |v.inodes| == MAX_INODES && |v.dirty| == v.bitmapBlocks
  {
    hide BitmapBlocks;
  }

  /** The superblock of the cached state. */
  function SuperblockOf(v: Vol, mac: seq<Sector> -> Mac): (sb: Superblock)
    requires Shape(v)
  {
    GeometryBounds(v);
    MakeSuperblock(v.total, v.bitmapBlocks, v.freeBlocks, v.freeInodes, mac(PackAll(v.bitmap, v.bitmapBlocks)))
  }

  ghost predicate BitmapSectorOnDisk(v: Vol, i: nat)
    requires Shape(v) && i < v.bitmapBlocks
  {
    GeometryBounds(v);
    v.disk[1 + i] == PackSector(v.bitmap, i)
  }

  /** A bitmap sector that is not flagged dirty is on disk as it is in memory. */
  ghost predicate Clean(v: Vol)
  {
    && Shape(v)
    && forall i :: 0 <= i < v.bitmapBlocks && !v.dirty[i] ==> BitmapSectorOnDisk(v, i)
  }

  /** All metadata is on disk as it is in memory. */
  ghost predicate OnDisk(v: Vol, mac: seq<Sector> -> Mac)
  {
    && Shape(v)
    && v.disk[0] == EncodeSuperblock(SuperblockOf(v, mac))
    && (forall i :: 0 <= i < v.bitmapBlocks ==> !v.dirty[i] && BitmapSectorOnDisk(v, i))
    && (forall j :: 0 <= j < INODE_BLOCKS ==> v.disk[1 + v.bitmapBlocks + j] == EncodeInodes(v.inodes, j))
  }

  /** Tracked changes keep clean sectors clean. */
  lemma TrackedClean(v: Vol, v': Vol)
    requires Clean(v) && Tracked(v, v')
    ensures Clean(v')
  {
    hide BitmapBlocks, PackSector;
    forall i | 0 <= i < v'.bitmapBlocks && !v'.dirty[i]
      ensures BitmapSectorOnDisk(v', i)
    {
      assert !v.dirty[i];
      assert BitmapSectorOnDisk(v, i);
      forall b | BITS_PER_BLOCK * i <= b < BITS_PER_BLOCK * (i + 1)
        ensures v.bitmap[b] == v'.bitmap[b]
      {
        BitmapSectorOf(b, i);
      }
      PackSectorFrame(v.bitmap, v'.bitmap, i);
    }
  }

  lemma BitmapSectorOf(b: nat, i: nat)
    requires BITS_PER_BLOCK * i <= b < BITS_PER_BLOCK * (i + 1)
    ensures BitmapSector(b) == i
  {
  }

  /** From v to v', only metadata blocks were written. */
  ghost predicate MetaWritten(v: Vol, v': Vol)
  {
    && Shape(v) && Shape(v') && SameSpace(v, v')
    && v'.inodes == v.inodes && v'.freeInodes == v.freeInodes && v'.foreign == v.foreign
    && (forall k :: v.dataStart <= k < v.total ==> v'.disk[k] == v.disk[k])
  }

  /** A write of metadata changes no reference and no file block. */
  lemma MetaWrittenMapping(v: Vol, own: Owners, v': Vol)
    requires Mapping(v, own) && MetaWritten(v, v')
    ensures Mapping(v', own) && SameBlocks(v, v')
    ensures forall s :: ValidSlot(s) ==> Ref(v', s) == Ref(v, s)
  {
    hide Ref, BitmapBlocks, NoHollow, Counted, RefsOwned, FreeSet;
    assert TablesKept(v, v', own) && DataKept(v, v', own);
    CoreFrame(v, v', own, {});
    BlockFrame(v, v', own, {});
    SameRefsCounted(v, v');
  }

  lemma MetaWrittenShape(v: Vol, v': Vol)
    requires MetaWritten(v, v')
    ensures Shape(v) && Shape(v') && v'.inodes == v.inodes && v'.freeInodes == v.freeInodes && v'.foreign == v.foreign
    ensures v'.freeBlocks == v.freeBlocks && v'.total == v.total && v'.bitmap == v.bitmap && v'.dataStart == v.dataStart
  {
  }
}
