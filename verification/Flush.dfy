/** denyfs_vol_flush: writes the superblock, the dirty bitmap sectors and the inode table. */
module Flush {
  import opened Base
  import opened Codec
  import opened FileMap
  import opened Ownership
  import opened Persist
  import opened Image
  import opened Volume

  /** A flush of v0 got as far as bitmap sector nb and inode sector nj; nothing but metadata was written. */
  ghost predicate Flushing(v0: Vol, v: Vol, mac: seq<Sector> -> Mac, nb: nat, nj: nat)
  {
    && MetaWritten(v0, v) && v.dirty == v0.dirty && nb <= v0.bitmapBlocks && nj <= INODE_BLOCKS
    && v.disk[0] == EncodeSuperblock(SuperblockOf(v0, mac))
    && (forall i :: 0 <= i < v0.bitmapBlocks ==>
          if i < nb && v0.dirty[i] then BitmapSectorOnDisk(v, i) else v.disk[1 + i] == v0.disk[1 + i])
    && (forall j :: 0 <= j < nj ==> v.disk[1 + v.bitmapBlocks + j] == EncodeInodes(v0.inodes, j))
  }

  lemma FlushStart(v0: Vol, mac: seq<Sector> -> Mac)
    requires Shape(v0)
    ensures Flushing(v0, PutBlock(v0, 0, EncodeSuperblock(SuperblockOf(v0, mac))), mac, 0, 0)
  {
    hide BitmapBlocks, EncodeSuperblock, SuperblockOf;
    GeometryBounds(v0);
  }

  lemma FlushBitmapSector(v0: Vol, v: Vol, mac: seq<Sector> -> Mac, nb: nat)
    requires Flushing(v0, v, mac, nb, 0) && Shape(v0) && nb < v0.bitmapBlocks
             && |v0.bitmap| == BITS_PER_BLOCK * v0.bitmapBlocks
    ensures v0.dirty[nb] ==> Flushing(v0, PutBlock(v, 1 + nb, PackSector(v0.bitmap, nb)), mac, nb + 1, 0)
    ensures !v0.dirty[nb] ==> Flushing(v0, v, mac, nb + 1, 0)
  {
    hide BitmapBlocks, EncodeSuperblock, SuperblockOf, PackSector;
    GeometryBounds(v0);
    if v0.dirty[nb] {
      var w := PutBlock(v, 1 + nb, PackSector(v0.bitmap, nb));
      assert MetaWritten(v0, w) && w.disk[0] == v.disk[0];
      assert BitmapSectorOnDisk(w, nb);
      forall i | 0 <= i < v0.bitmapBlocks && i != nb
        ensures w.disk[1 + i] == v.disk[1 + i]
        ensures BitmapSectorOnDisk(w, i) <==> BitmapSectorOnDisk(v, i)
      {
      }
    }
  }

  lemma FlushInodeSector(v0: Vol, v: Vol, mac: seq<Sector> -> Mac, nj: nat)
    requires Flushing(v0, v, mac, v0.bitmapBlocks, nj) && Shape(v0) && nj < INODE_BLOCKS
    ensures Flushing(v0, PutBlock(v, 1 + v0.bitmapBlocks + nj, EncodeInodes(v0.inodes, nj)), mac, v0.bitmapBlocks,
            nj + 1)
  {
    hide BitmapBlocks, EncodeSuperblock, SuperblockOf, PackSector, EncodeInodes;
    GeometryBounds(v0);
    var w := PutBlock(v, 1 + v0.bitmapBlocks + nj, EncodeInodes(v0.inodes, nj));
    forall i | 0 <= i < v0.bitmapBlocks
      ensures w.disk[1 + i] == v.disk[1 + i]
      ensures BitmapSectorOnDisk(w, i) <==> BitmapSectorOnDisk(v, i)
    {
    }
  }

  lemma FlushingClean(v0: Vol, v: Vol, mac: seq<Sector> -> Mac, nb: nat, nj: nat)
    requires Flushing(v0, v, mac, nb, nj)
    ensures MetaWritten(v0, v) && Shape(v0) && (Clean(v0) ==> Clean(v))
  {
    hide BitmapBlocks, EncodeSuperblock, SuperblockOf, PackSector, EncodeInodes;
    if Clean(v0) {
      forall i | 0 <= i < v.bitmapBlocks && !v.dirty[i]
        ensures BitmapSectorOnDisk(v, i)
      {
        assert BitmapSectorOnDisk(v0, i);
      }
    }
  }

  lemma FlushDone(v0: Vol, v: Vol, mac: seq<Sector> -> Mac)
    requires Flushing(v0, v, mac, v0.bitmapBlocks, INODE_BLOCKS)
    ensures MetaWritten(v0, CleanFlags(v)) && (Clean(v0) ==> OnDisk(CleanFlags(v), mac) && Clean(CleanFlags(v)))
  {
    hide BitmapBlocks, EncodeSuperblock, PackSector, EncodeInodes;
    var w := CleanFlags(v);
    if Clean(v0) {
      FlushingClean(v0, v, mac, v0.bitmapBlocks, INODE_BLOCKS);
      forall i | 0 <= i < w.bitmapBlocks
        ensures BitmapSectorOnDisk(w, i)
      {
        assert BitmapSectorOnDisk(v, i);
      }
    }
  }

  lemma MetaWrittenNone(v: Vol)
    requires Shape(v)
    ensures MetaWritten(v, v)
  {
  }

  method VolFlush(vol: DenyVolume) returns (st: Status)
    requires vol.Valid()
    modifies vol.Footprint()
    ensures vol.Valid()
    ensures MetaWritten(old(vol.View()), vol.View())
    ensures Clean(old(vol.View())) ==> Clean(vol.View())
    ensures st == OK && Clean(old(vol.View())) ==> OnDisk(vol.View(), vol.mac) && FlushedBytes(vol.View(), vol.mac)
    ensures st == OK || st == Failed
    ensures vol.Reliable() ==> st == OK
  {
    hide *;
    ghost var v0 := vol.View();
    MetaWrittenNone(v0);
    GeometryBounds(v0);
    ViewGeometry(vol);
    FlushStart(v0, vol.mac);
    var sb := MakeSuperblock(vol.total, vol.bitmapBlocks, vol.freeBlocks, vol.freeInodes,
        vol.mac(PackAll(vol.Bits(), vol.bitmapBlocks)));
    SuperblockIs(v0, vol.mac, sb);
    st := vol.WriteBlock(0, EncodeSuperblock(sb));
    if st != OK {
      st := Failed;
      return;
    }
    st := FlushBitmap(vol, v0);
    if st != OK {
      return;
    }
    st := FlushInodes(vol, v0);
    if st != OK {
      return;
    }
    st := SyncAndClear(vol, v0);
    if st == OK && Clean(v0) { FlushedImage(vol.View(), vol.mac); }
  }

  lemma ViewGeometry(vol: DenyVolume)
    requires vol.Valid()
    ensures vol.View().total == vol.total && vol.View().bitmapBlocks == vol.bitmapBlocks
            && vol.View().dataStart == vol.dataStart
    ensures vol.View().freeBlocks == vol.freeBlocks && vol.View().freeInodes == vol.freeInodes
    ensures vol.bitmapBlocks + 1 + INODE_BLOCKS <= INVALID
    ensures BITS_PER_BLOCK * vol.bitmapBlocks <= |vol.View().bitmap|
  {
    hide BitmapBlocks, DenyVolume.Mounted;
  }

  lemma SuperblockIs(v: Vol, mac: seq<Sector> -> Mac, sb: Superblock)
    requires Shape(v)
    requires v.bitmapBlocks + 1 + INODE_BLOCKS <= INVALID && v.total <= INVALID
             && BITS_PER_BLOCK * v.bitmapBlocks <= |v.bitmap|
    requires sb == MakeSuperblock(v.total, v.bitmapBlocks, v.freeBlocks, v.freeInodes,
             mac(PackAll(v.bitmap, v.bitmapBlocks)))
    ensures sb == SuperblockOf(v, mac)
  {
  }

  /** The dirty sectors of the bitmap. */
  method FlushBitmap(vol: DenyVolume, ghost v0: Vol) returns (st: Status)
    requires vol.Valid() && Flushing(v0, vol.View(), vol.mac, 0, 0)
    modifies vol.Footprint()
    ensures vol.Valid()
    ensures st == OK ==> Flushing(v0, vol.View(), vol.mac, v0.bitmapBlocks, 0)
    ensures MetaWritten(v0, vol.View()) && (Clean(v0) ==> Clean(vol.View()))
    ensures st == OK || st == Failed
    ensures vol.Reliable() ==> st == OK
  {
    hide *;
    FlushingFields(v0, vol.View(), vol.mac, 0, 0);
    ViewGeometry(vol);
    var i := 0;
    while i < vol.bitmapBlocks
      invariant i <= vol.bitmapBlocks == v0.bitmapBlocks
      invariant vol.Valid() && Flushing(v0, vol.View(), vol.mac, i, 0)
    {
      st := FlushOneSector(vol, i, v0);
      if st != OK {
        return;
      }
      i := i + 1;
    }
    FlushingClean(v0, vol.View(), vol.mac, i, 0);
    st := OK;
  }

  method FlushOneSector(vol: DenyVolume, i: nat, ghost v0: Vol) returns (st: Status)
    requires vol.Valid() && Flushing(v0, vol.View(), vol.mac, i, 0) && i < vol.bitmapBlocks == v0.bitmapBlocks
    modifies vol.Footprint()
    ensures vol.Valid()
    ensures st == OK ==> Flushing(v0, vol.View(), vol.mac, i + 1, 0)
    ensures MetaWritten(v0, vol.View()) && (Clean(v0) ==> Clean(vol.View()))
    ensures st == OK || st == Failed
    ensures vol.Reliable() ==> st == OK
  {
    hide *;
    st := OK;
    FlushingFields(v0, vol.View(), vol.mac, i, 0);
    FlushBitmapSector(v0, vol.View(), vol.mac, i);
    FlushingClean(v0, vol.View(), vol.mac, i, 0);
    if vol.IsDirty(i) {
      st := vol.WriteBlock(1 + i, PackSector(vol.Bits(), i));
      if st != OK {
        st := Failed;
        return;
      }
    }
    FlushingClean(v0, vol.View(), vol.mac, i + 1, 0);
  }

  lemma FlushingFields(v0: Vol, v: Vol, mac: seq<Sector> -> Mac, nb: nat, nj: nat)
    requires Flushing(v0, v, mac, nb, nj)
    ensures Shape(v0) && v.bitmap == v0.bitmap && v.inodes == v0.inodes && v.dirty == v0.dirty
            && v.bitmapBlocks == v0.bitmapBlocks
    ensures |v0.bitmap| == BITS_PER_BLOCK * v0.bitmapBlocks && |v0.inodes| == MAX_INODES
            && |v0.dirty| == v0.bitmapBlocks
    ensures v0.bitmapBlocks + 1 + INODE_BLOCKS < v0.total == v.total < INVALID
    ensures nb < v0.bitmapBlocks ==> BITS_PER_BLOCK * (nb + 1) <= |v0.bitmap|
  {
    hide BitmapBlocks;
  }

  /** The inode table. */
  method FlushInodes(vol: DenyVolume, ghost v0: Vol) returns (st: Status)
    requires vol.Valid() && Flushing(v0, vol.View(), vol.mac, v0.bitmapBlocks, 0)
    modifies vol.Footprint()
    ensures vol.Valid()
    ensures st == OK ==> Flushing(v0, vol.View(), vol.mac, v0.bitmapBlocks, INODE_BLOCKS)
    ensures MetaWritten(v0, vol.View()) && (Clean(v0) ==> Clean(vol.View()))
    ensures st == OK || st == Failed
    ensures vol.Reliable() ==> st == OK
  {
    hide *;
    var j := 0;
    FlushingClean(v0, vol.View(), vol.mac, v0.bitmapBlocks, 0);
    while j < INODE_BLOCKS
      invariant j <= INODE_BLOCKS
      invariant vol.Valid() && Flushing(v0, vol.View(), vol.mac, v0.bitmapBlocks, j)
      invariant MetaWritten(v0, vol.View()) && (Clean(v0) ==> Clean(vol.View()))
    {
      FlushingFields(v0, vol.View(), vol.mac, v0.bitmapBlocks, j);
      ViewGeometry(vol);
      FlushInodeSector(v0, vol.View(), vol.mac, j);
      st := vol.WriteBlock(1 + vol.bitmapBlocks + j, EncodeInodes(vol.Nodes(), j));
      if st != OK {
        st := Failed;
        return;
      }
      j := j + 1;
      FlushingClean(v0, vol.View(), vol.mac, v0.bitmapBlocks, j);
    }
    st := OK;
  }

  /** fflush, and the dirty flags when it succeeds. */
  method SyncAndClear(vol: DenyVolume, ghost v0: Vol) returns (st: Status)
    requires vol.Valid() && Flushing(v0, vol.View(), vol.mac, v0.bitmapBlocks, INODE_BLOCKS)
    modifies vol.Footprint()
    ensures vol.Valid()
    ensures MetaWritten(v0, vol.View()) && (Clean(v0) ==> Clean(vol.View()))
    ensures st == OK && Clean(v0) ==> OnDisk(vol.View(), vol.mac)
    ensures st == OK || st == Failed
    ensures vol.Reliable() ==> st == OK
  {
    hide *;
    FlushingClean(v0, vol.View(), vol.mac, v0.bitmapBlocks, INODE_BLOCKS);
    FlushDone(v0, vol.View(), vol.mac);
    if vol.faulty {
      var fail: bool := *;
      if fail {
        return Failed;
      }
    }
    vol.ClearDirty();
    st := OK;
  }
}
