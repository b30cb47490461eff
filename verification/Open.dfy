/** validate_superblock and the metadata-loading half of denyfs_vol_open. */
module Open {
  import opened Base
  import opened Codec
  import opened FileMap
  import opened Ownership
  import opened FileSystem
  import opened Persist
  import opened Volume
  import opened Create
  import opened Scan
  import opened Checker

  /** Every word that a superblock of a volume of this many bytes must hold; the counters are only bounded. */
  predicate ValidateSuperblock(sb: Superblock, volumeSize: nat)
  {
    var total := volumeSize / SECTOR_SIZE;
    var n := BitmapBlocks(total);
    && volumeSize != 0 && volumeSize % SECTOR_SIZE == 0
    && 4 <= total <= INVALID
    && sb.magic == SB_MAGIC && sb.blockSize == SECTOR_SIZE && sb.totalBlocks == total && sb.inodeCount == MAX_INODES
    && sb.bitmapStart == 1 && sb.inodeBlocks == INODE_BLOCKS
    && sb.bitmapBlocks == n && sb.inodeStart == 1 + n && sb.dataStart == 1 + n + sb.inodeBlocks
    && sb.dataStart < sb.totalBlocks
    && sb.freeBlocks <= sb.totalBlocks - sb.dataStart
    && sb.freeInodes < MAX_INODES
  }

  // ------------------------------------------------------------ decoding

  /** The bits stored in consecutive bitmap sectors. */
  function DecodeBitmap(sectors: seq<Sector>): (bits: seq<bool>)
    ensures |bits| == BITS_PER_BLOCK * |sectors|
  {
    seq(BITS_PER_BLOCK * |sectors|, b requires 0 <= b < BITS_PER_BLOCK * |sectors| =>
        SectorBit(sectors[b / BITS_PER_BLOCK], b % BITS_PER_BLOCK))
  }

  /** The inode table stored in two sectors. */
  function DecodeInodes(first: Sector, second: Sector): (nodes: seq<Inode>)
    ensures |nodes| == MAX_INODES
  {
    seq(MAX_INODES, i requires 0 <= i < MAX_INODES =>
        DecodeInode(if i < INODES_PER_BLOCK then first else second, i % INODES_PER_BLOCK))
  }

  /** The state that loading the metadata of these blocks produces. */
  ghost function Loaded(disk: seq<Sector>, foreign: map<nat, Sector>): (v: Vol)
    requires 3 + BitmapBlocks(|disk|) < |disk|
  {
    var n := BitmapBlocks(|disk|);
    var sb := DecodeSuperblock(disk[0]);
    Vol(|disk|, n, 1 + n + INODE_BLOCKS, DecodeBitmap(disk[1..1 + n]), seq(n, _ => false), sb.freeBlocks, sb.freeInodes,
        DecodeInodes(disk[1 + n], disk[2 + n]), disk, foreign)
  }

  /** The blocks hold a volume that open accepts. */
  ghost predicate Opens(disk: seq<Sector>, mac: seq<Sector> -> Mac, foreign: map<nat, Sector>)
  {
    && 3 + BitmapBlocks(|disk|) < |disk|
    && ValidateSuperblock(DecodeSuperblock(disk[0]), |disk| * SECTOR_SIZE)
    && mac(disk[1..1 + BitmapBlocks(|disk|)]) == DecodeSuperblock(disk[0]).bitmapHmac
    && Acceptable(Loaded(disk, foreign))
  }

  // -------------------------------------------------- what a flush wrote

  lemma DecodePackAll(bits: seq<bool>, n: nat)
    requires |bits| == BITS_PER_BLOCK * n
    ensures DecodeBitmap(PackAll(bits, n)) == bits
  {
    hide PackSector, SectorBit;
    forall b | 0 <= b < |bits|
      ensures DecodeBitmap(PackAll(bits, n))[b] == bits[b]
    {
      PackSectorRoundTrip(bits, b / BITS_PER_BLOCK, b % BITS_PER_BLOCK);
    }
  }

  lemma DecodeEncodedInodes(nodes: seq<Inode>)
    requires |nodes| == MAX_INODES
    ensures DecodeInodes(EncodeInodes(nodes, 0), EncodeInodes(nodes, 1)) == nodes
  {
    hide EncodeInodes, DecodeInode;
    forall i | 0 <= i < MAX_INODES
      ensures DecodeInodes(EncodeInodes(nodes, 0), EncodeInodes(nodes, 1))[i] == nodes[i]
    {
      InodeRoundTrip(nodes, i / INODES_PER_BLOCK, i % INODES_PER_BLOCK);
    }
  }

  lemma BitmapOnDisk(v: Vol, mac: seq<Sector> -> Mac)
    requires OnDisk(v, mac)
    ensures Shape(v) && v.disk[1..1 + v.bitmapBlocks] == PackAll(v.bitmap, v.bitmapBlocks)
    ensures v.dirty == seq(v.bitmapBlocks, _ => false) && v.disk[0] == EncodeSuperblock(SuperblockOf(v, mac))
    ensures v.disk[1 + v.bitmapBlocks] == EncodeInodes(v.inodes, 0)
            && v.disk[2 + v.bitmapBlocks] == EncodeInodes(v.inodes, 1)
  {
    hide BitmapBlocks, PackSector, EncodeInodes, EncodeSuperblock, SuperblockOf;
    GeometryBounds(v);
    forall i | 0 <= i < v.bitmapBlocks
      ensures v.disk[1..1 + v.bitmapBlocks][i] == PackAll(v.bitmap, v.bitmapBlocks)[i]
    {
      assert BitmapSectorOnDisk(v, i);
    }
    assert v.disk[1 + v.bitmapBlocks + 0] == EncodeInodes(v.inodes, 0);
    assert v.disk[1 + v.bitmapBlocks + 1] == EncodeInodes(v.inodes, 1);
  }

  /** Loading what a flush wrote gives back the state that was flushed, to the last bit. */
  lemma LoadedIsFlushed(v: Vol, mac: seq<Sector> -> Mac)
    requires OnDisk(v, mac)
    ensures Shape(v) && 3 + BitmapBlocks(|v.disk|) < |v.disk| && Loaded(v.disk, v.foreign) == v
    ensures DecodeSuperblock(v.disk[0]) == SuperblockOf(v, mac)
    ensures mac(v.disk[1..1 + BitmapBlocks(|v.disk|)]) == DecodeSuperblock(v.disk[0]).bitmapHmac
  {
    hide DecodeBitmap, DecodeInodes, PackAll, EncodeInodes, EncodeSuperblock, DecodeSuperblock, BitmapBlocks;
    BitmapOnDisk(v, mac);
    GeometryBounds(v);
    SuperblockRoundTrip(SuperblockOf(v, mac));
    DecodePackAll(v.bitmap, v.bitmapBlocks);
    DecodeEncodedInodes(v.inodes);
  }

  lemma SoundCounters(v: Vol, own: Owners)
    requires Sound(v, own)
    ensures Shape(v) && v.freeBlocks <= v.total - v.dataStart && v.freeInodes < MAX_INODES
  {
    hide *;
    SoundCore(v, own);
    Conservation(v, own, {});
    InodeCount(v, own);
    FewFreeInodes(v);
  }

  lemma FewFreeInodes(v: Vol)
    requires |v.inodes| == MAX_INODES && v.inodes[0].kind != FREE
    ensures |FreeInodeSet(v)| < MAX_INODES
  {
    hide Interval;
    SubsetSize(FreeInodeSet(v), Interval(1, MAX_INODES));
  }

  lemma SuperblockValid(v: Vol, mac: seq<Sector> -> Mac)
    requires Shape(v) && v.freeBlocks <= v.total - v.dataStart && v.freeInodes < MAX_INODES
    ensures ValidateSuperblock(SuperblockOf(v, mac), v.total * SECTOR_SIZE)
  {
    hide PackAll;
    GeometryBounds(v);
    assert v.total * SECTOR_SIZE / SECTOR_SIZE == v.total;
    assert BitmapBlocks(v.total) >= 1;
  }

  /**
   * The persistence round trip: after a flush of a sound state, discarding memory and opening the
   * volume again succeeds and rebuilds exactly that state.
   */
  lemma Persistence(v: Vol, own: Owners, mac: seq<Sector> -> Mac)
    requires OnDisk(v, mac) && Sound(v, own)
    ensures Opens(v.disk, mac, v.foreign) && Loaded(v.disk, v.foreign) == v
  {
    hide *;
    LoadedIsFlushed(v, mac);
    SoundCounters(v, own);
    SuperblockValid(v, mac);
    OpensIntro(v, own, mac);
  }

  lemma OpensIntro(v: Vol, own: Owners, mac: seq<Sector> -> Mac)
    requires Shape(v) && Sound(v, own) && 3 + BitmapBlocks(|v.disk|) < |v.disk| && Loaded(v.disk, v.foreign) == v
    requires ValidateSuperblock(DecodeSuperblock(v.disk[0]), v.total * SECTOR_SIZE)
    requires mac(v.disk[1..1 + BitmapBlocks(|v.disk|)]) == DecodeSuperblock(v.disk[0]).bitmapHmac
    ensures Opens(v.disk, mac, v.foreign)
  {
    hide Sound, Loaded, ValidateSuperblock, DecodeSuperblock, BitmapBlocks;
  }

  // ------------------------------------------------------------------- opening

  /** A freshly loaded volume has every bitmap sector in memory as it is on disk. */
  lemma LoadedClean(disk: seq<Sector>, foreign: map<nat, Sector>)
    requires 3 + BitmapBlocks(|disk|) < |disk| <= INT32_LIMIT
    ensures Clean(Loaded(disk, foreign))
  {
    hide BitmapBlocks, PackSector, SectorBit, DecodeInodes, DecodeSuperblock;
    var v := Loaded(disk, foreign);
    GeometryBounds(v);
    forall i | 0 <= i < v.bitmapBlocks
      ensures BitmapSectorOnDisk(v, i)
    {
      var s := disk[1 + i];
      forall t | 0 <= t < BITS_PER_BLOCK
        ensures v.bitmap[BITS_PER_BLOCK * i + t] == SectorBit(s, t)
      {
        BitPosition(i, t);
        assert disk[1..1 + v.bitmapBlocks][i] == s;
      }
      SectorPackRoundTrip(s, v.bitmap, i);
    }
  }

  lemma BitPosition(i: nat, t: nat)
    requires t < BITS_PER_BLOCK
    ensures (BITS_PER_BLOCK * i + t) / BITS_PER_BLOCK == i && (BITS_PER_BLOCK * i + t) % BITS_PER_BLOCK == t
  {
  }

  /** The container sectors that a volume with this range and guard may not write. */
  ghost function ForeignSectors(sectors: seq<Sector>, start: nat, total: nat, protect: bool,
                                protectStart: nat): (f: map<nat, Sector>)
  {
    map i: nat | i < |sectors| && !(start <= i < start + total && !(protect && protectStart <= i)) :: sectors[i]
  }

  /** read_block before the volume's caches exist. */
  method ReadSector(sectors: array<Sector>, cipher: Cipher, start: nat, total: nat, faulty: bool, b: nat)
    returns (ok: bool, data: Sector)
    requires start + total <= sectors.Length && b < total
    ensures ok ==> data == Plain(sectors[..], cipher, start, total)[b]
    ensures !faulty ==> ok
  {
    ok, data := true, cipher.dec(b, sectors[start + b]);
    if faulty {
      ok := *;
    }
  }

  /** Consecutive blocks, one by one. */
  method ReadSectors(sectors: array<Sector>, cipher: Cipher, start: nat, total: nat, faulty: bool, first: nat,
                     count: nat)
    returns (ok: bool, data: seq<Sector>)
    requires start + total <= sectors.Length && first + count <= total
    ensures ok ==> data == Plain(sectors[..], cipher, start, total)[first..first + count]
    ensures !faulty ==> ok
  {
    hide Plain;
    ok, data := true, [];
    ghost var disk := Plain(sectors[..], cipher, start, total);
    while |data| < count
      invariant |data| <= count && ok && data == disk[first..first + |data|]
                && disk == Plain(sectors[..], cipher, start, total)
      decreases count - |data|
    {
      var next;
      ok, next := ReadSector(sectors, cipher, start, total, faulty, first + |data|);
      if !ok {
        return;
      }
      data := data + [next];
    }
  }

  /** The caches built from the superblock, the bitmap sectors and the inode sectors are the loaded state. */
  lemma BuiltIsLoaded(vol: DenyVolume, disk: seq<Sector>, sb: Superblock, bitmap: seq<Sector>, nodes: seq<Sector>)
    requires vol.Valid() && vol.View().disk == disk && 3 + BitmapBlocks(|disk|) < |disk|
    requires sb == DecodeSuperblock(disk[0]) && bitmap == disk[1..1 + BitmapBlocks(|disk|)]
    requires nodes == disk[1 + BitmapBlocks(|disk|)..3 + BitmapBlocks(|disk|)]
    requires vol.bitmap[..] == DecodeBitmap(bitmap) && vol.inodes[..] == DecodeInodes(nodes[0], nodes[1])
    requires vol.freeBlocks == sb.freeBlocks && vol.freeInodes == sb.freeInodes
    requires forall i :: 0 <= i < vol.dirty.Length ==> !vol.dirty[i]
    ensures vol.View() == Loaded(disk, vol.View().foreign)
  {
    hide BitmapBlocks, DecodeBitmap, DecodeInodes, DecodeSuperblock, DenyVolume.Mounted;
  }

  /** vol is mounted on this part of this container. */
  ghost predicate MountedAt(vol: DenyVolume, sectors: array<Sector>, cipher: Cipher, mac: seq<Sector> -> Mac,
                            start: nat, total: nat,
                            protect: bool, protectStart: nat, faulty: bool)
    reads vol, vol.Footprint()
  {
    && vol.Valid()
    && vol.sectors == sectors && vol.cipher == cipher && vol.mac == mac && vol.start == start && vol.total == total
    && vol.protect == protect && vol.protectStart == protectStart && vol.faulty == faulty
  }

  lemma MountedDisk(vol: DenyVolume, sectors: array<Sector>, cipher: Cipher, mac: seq<Sector> -> Mac, start: nat,
                    total: nat,
                    protect: bool, protectStart: nat, faulty: bool)
    requires MountedAt(vol, sectors, cipher, mac, start, total, protect, protectStart, faulty)
    ensures start + total <= sectors.Length && vol.View().disk == Plain(sectors[..], cipher, start, total)
    ensures vol.View().foreign == ForeignSectors(sectors[..], start, total, protect, protectStart)
  {
    hide BitmapBlocks;
  }

  /** The state is a match for disk and container. */
  ghost predicate IsLoaded(v: Vol, disk: seq<Sector>)
  {
    3 + BitmapBlocks(|disk|) < |disk| && v == Loaded(disk, v.foreign)
  }

  /**
   * Loads and checks a volume's metadata. Without read errors the open succeeds exactly when the
   * blocks hold an acceptable volume; what it returns is sound and mirrors the disk.
   */
  method OpenVolume(sectors: array<Sector>, cipher: Cipher, mac: seq<Sector> -> Mac, start: nat, volumeSize: nat,
                    protect: bool, protectStart: nat, faulty: bool)
    returns (r: Option<DenyVolume>, ghost own: Owners)
    requires cipher.Inverse() && volumeSize % SECTOR_SIZE == 0 && volumeSize / SECTOR_SIZE <= INT32_LIMIT
    requires start + volumeSize / SECTOR_SIZE <= sectors.Length
    ensures r.Some? ==>
              MountedAt(r.value, sectors, cipher, mac, start, volumeSize / SECTOR_SIZE, protect, protectStart, faulty)
    ensures r.Some? ==> fresh(r.value.Footprint() - {sectors})
    ensures r.Some? ==> IsLoaded(r.value.View(), Plain(sectors[..], cipher, start, volumeSize / SECTOR_SIZE))
    ensures r.Some? ==> Sound(r.value.View(), own) && Clean(r.value.View())
    ensures !faulty ==>
              (r.Some? <==> Opens(Plain(sectors[..], cipher, start, volumeSize / SECTOR_SIZE), mac,
                                  ForeignSectors(sectors[..], start, volumeSize / SECTOR_SIZE, protect, protectStart)))
  {
    hide Plain, BitmapBlocks, DecodeBitmap, DecodeInodes, DecodeSuperblock, Opens, ValidateSuperblock, Sound, Clean,
         IsLoaded,
         DenyVolume.Mounted, DenyVolume.View, DenyVolume.Valid, ForeignSectors, MountedAt, Shape;
    r, own := None, map[];
    var total := volumeSize / SECTOR_SIZE;
    ghost var disk := Plain(sectors[..], cipher, start, total);
    OpensNeeds(disk, mac, ForeignSectors(sectors[..], start, total, protect, protectStart), volumeSize);
    if total == 0 {
      return;
    }
    var ok, first := ReadSector(sectors, cipher, start, total, faulty, 0);
    if !ok {
      return;
    }
    var sb := DecodeSuperblock(first);
    if sb.magic != SB_MAGIC || !ValidateSuperblock(sb, volumeSize) {
      return;
    }
    ValidGeometry(sb, volumeSize);
    var bitmap;
    ok, bitmap := ReadSectors(sectors, cipher, start, total, faulty, 1, sb.bitmapBlocks);
    if !ok || mac(bitmap) != sb.bitmapHmac {
      return;
    }
    var nodes;
    ok, nodes := ReadSectors(sectors, cipher, start, total, faulty, 1 + sb.bitmapBlocks, INODE_BLOCKS);
    if !ok {
      return;
    }
    r, own := LoadAndCheck(sectors, cipher, mac, start, total, protect, protectStart, faulty, sb, bitmap, nodes);
    OpensIff(disk, mac, ForeignSectors(sectors[..], start, total, protect, protectStart), volumeSize);
  }

  lemma OpensNeeds(disk: seq<Sector>, mac: seq<Sector> -> Mac, foreign: map<nat, Sector>, volumeSize: nat)
    requires |disk| == volumeSize / SECTOR_SIZE && volumeSize % SECTOR_SIZE == 0
    ensures Opens(disk, mac, foreign) ==>
              && |disk| > 0 && ValidateSuperblock(DecodeSuperblock(disk[0]), volumeSize)
              && DecodeSuperblock(disk[0]).magic == SB_MAGIC
              && 1 + BitmapBlocks(|disk|) <= |disk|
              && mac(disk[1..1 + BitmapBlocks(|disk|)]) == DecodeSuperblock(disk[0]).bitmapHmac
  {
    hide DecodeSuperblock, Loaded, BitmapBlocks, Acceptable;
  }

  lemma OpensIff(disk: seq<Sector>, mac: seq<Sector> -> Mac, foreign: map<nat, Sector>, volumeSize: nat)
    requires |disk| == volumeSize / SECTOR_SIZE && volumeSize % SECTOR_SIZE == 0 && 3 + BitmapBlocks(|disk|) < |disk|
    requires ValidateSuperblock(DecodeSuperblock(disk[0]), volumeSize)
    requires mac(disk[1..1 + BitmapBlocks(|disk|)]) == DecodeSuperblock(disk[0]).bitmapHmac
    ensures Opens(disk, mac, foreign) <==> Acceptable(Loaded(disk, foreign))
  {
    hide DecodeSuperblock, Loaded, BitmapBlocks, Acceptable;
  }

  lemma ValidGeometry(sb: Superblock, volumeSize: nat)
    requires ValidateSuperblock(sb, volumeSize)
    ensures var total := volumeSize / SECTOR_SIZE;
            sb.bitmapBlocks == BitmapBlocks(total) && 3 + BitmapBlocks(total) < total && INODE_BLOCKS == 2
  {
    hide BitmapBlocks;
  }

  /** The caches, and the check of all metadata. */
  method LoadAndCheck(sectors: array<Sector>, cipher: Cipher, mac: seq<Sector> -> Mac, start: nat, total: nat,
                      protect: bool, protectStart: nat, faulty: bool, sb: Superblock, bitmap: seq<Sector>,
                          nodes: seq<Sector>)
    returns (r: Option<DenyVolume>, ghost own: Owners)
    requires cipher.Inverse() && total <= INT32_LIMIT && start + total <= sectors.Length
             && 3 + BitmapBlocks(total) < total
    requires sb == DecodeSuperblock(Plain(sectors[..], cipher, start, total)[0])
    requires bitmap == Plain(sectors[..], cipher, start, total)[1..1 + BitmapBlocks(total)]
    requires nodes == Plain(sectors[..], cipher, start, total)[1 + BitmapBlocks(total)..3 + BitmapBlocks(total)]
    ensures r.Some? ==> MountedAt(r.value, sectors, cipher, mac, start, total, protect, protectStart, faulty)
    ensures r.Some? ==> fresh(r.value.Footprint() - {sectors})
    ensures r.Some? ==> IsLoaded(r.value.View(), Plain(sectors[..], cipher, start, total))
    ensures r.Some? ==> Sound(r.value.View(), own) && Clean(r.value.View())
    ensures !faulty ==>
              (r.Some? <==>
                    Acceptable(Loaded(Plain(sectors[..], cipher, start, total),
                       ForeignSectors(sectors[..], start, total, protect, protectStart))))
  {
    hide Plain, BitmapBlocks, DecodeBitmap, DecodeInodes, DecodeSuperblock, Sound, Clean, IsLoaded, Acceptable, Loaded,
         DenyVolume.Mounted, DenyVolume.View, DenyVolume.Valid, ForeignSectors, Shape;
    ghost var disk := Plain(sectors[..], cipher, start, total);
    var vol := new DenyVolume(sectors, cipher, mac, start, total, protect, protectStart, faulty,
                              DecodeBitmap(bitmap), DecodeInodes(nodes[0], nodes[1]), sb.freeBlocks, sb.freeInodes);
    MountedDisk(vol, sectors, cipher, mac, start, total, protect, protectStart, faulty);
    BuiltIsLoaded(vol, disk, sb, bitmap, nodes);
    LoadedClean(disk, vol.View().foreign);
    LoadedIs(vol.View(), disk);
    var ok;
    ok, own := ValidateLoadedMetadata(vol);
    r := if ok then Some(vol) else None;
    if ok { AcceptableIntro(vol.View(), own); }
  }

  lemma LoadedIs(v: Vol, disk: seq<Sector>)
    requires 3 + BitmapBlocks(|disk|) < |disk| && v == Loaded(disk, v.foreign)
    ensures IsLoaded(v, disk)
  {
    hide Loaded, BitmapBlocks;
  }

  lemma AcceptableIntro(v: Vol, own: Owners)
    requires Sound(v, own)
    ensures Acceptable(v)
  {
    hide Sound;
  }
}
