/**
 * The open volume: the cached superblock counters, bitmap, dirty flags and inode
 * table, over an encrypted container. View() is its value; the methods here are
 * the only ones that touch the heap directly.
 */
module Volume {
  import opened Base
  import opened Codec
  import opened FileMap
  import opened Ownership

  /** Sector encryption under one volume key: a bijection for every block number. */
  datatype Cipher = Cipher(enc: (nat, Sector) -> Sector, dec: (nat, Sector) -> Sector)
  {
    ghost predicate Inverse()
    {
      forall i: nat, x: Sector :: dec(i, enc(i, x)) == x
    }
  }

  /** denyfs_volume_t. A volume is faulty when the host may fail any read or write. */
  class DenyVolume {
    const sectors: array<Sector>
    const cipher: Cipher
    const mac: seq<Sector> -> Mac
    const start: nat
    const total: nat
    const bitmapBlocks: nat
    const dataStart: nat
    const protect: bool
    const protectStart: nat
    const faulty: bool

    const bitmap: array<bool>
    const dirty: array<bool>
    const inodes: array<Inode>
    var freeBlocks: u32
    var freeInodes: u32

    /** The plaintext of the volume's blocks. */
    ghost var disk: seq<Sector>

    constructor (sectors: array<Sector>, cipher: Cipher, mac: seq<Sector> -> Mac, start: nat, total: nat,
                 protect: bool, protectStart: nat, faulty: bool,
                 bits: seq<bool>, nodes: seq<Inode>, freeBlocks: u32, freeInodes: u32)
      requires cipher.Inverse() && start + total <= sectors.Length
      requires |bits| == BITS_PER_BLOCK * BitmapBlocks(total) && |nodes| == MAX_INODES
      requires 3 + BitmapBlocks(total) < total <= INT32_LIMIT
      ensures Valid() && fresh(bitmap) && fresh(dirty) && fresh(inodes)
      ensures this.sectors == sectors && this.cipher == cipher && this.mac == mac && this.start == start
      ensures this.protect == protect && this.protectStart == protectStart && this.faulty == faulty
      ensures this.total == total && bitmap[..] == bits && inodes[..] == nodes
      ensures this.freeBlocks == freeBlocks && this.freeInodes == freeInodes
      ensures forall i :: 0 <= i < dirty.Length ==> !dirty[i]
    {
      this.sectors, this.cipher, this.mac, this.start, this.total := sectors, cipher, mac, start, total;
      this.protect, this.protectStart, this.faulty := protect, protectStart, faulty;
      this.freeBlocks, this.freeInodes := freeBlocks, freeInodes;
      bitmapBlocks := BitmapBlocks(total);
      dataStart := 1 + BitmapBlocks(total) + INODE_BLOCKS;
      bitmap := new bool[|bits|](i requires 0 <= i < |bits| => bits[i]);
      dirty := new bool[BitmapBlocks(total)](_ => false);
      inodes := new Inode[MAX_INODES](i requires 0 <= i < |nodes| => nodes[i]);
      disk := Plain(sectors[..], cipher, start, total);
      new;
      assert bitmap[..] == bits;
      assert inodes[..] == nodes;
    }

    ghost function Footprint(): set<object>
    {
      {this, bitmap, dirty, inodes, sectors}
    }

    ghost predicate Valid()
      reads Footprint()
      ensures Valid() ==> Shape(View())
    {
      match cipher
      case Cipher(enc, dec) => Shape(View()) && Mounted()
    }

    /** The caches are separate buffers, and disk is what the container decrypts to. */
    ghost predicate Mounted()
      reads this, sectors
    {
      && bitmap != dirty
      && cipher.Inverse()
      && start + total <= sectors.Length
      && disk == Plain(sectors[..], cipher, start, total)
    }

    /** The container sectors that a block write may change. */
    predicate Writable(i: nat)
    {
      start <= i < start + total && !(protect && protectStart <= i)
    }

    ghost function View(): Vol
      reads Footprint()
    {
      Vol(total, bitmapBlocks, dataStart, bitmap[..], dirty[..], freeBlocks, freeInodes, inodes[..], disk,
          map i: nat | i < sectors.Length && !Writable(i) :: sectors[i])
    }

    /** No read fails, and no write fails or is refused. */
    ghost predicate Reliable()
      ensures Reliable() ==> !faulty
    {
      !faulty && (protect ==> start + total <= protectStart)
    }

    function Node(ino: nat): (n: Inode)
      requires Valid() && ino < MAX_INODES
      reads Footprint()
      ensures n == View().inodes[ino]
    {
      inodes[ino]
    }

    /** Whether b is a data block that the bitmap marks as used. */
    predicate InUse(b: u32)
      requires Valid()
      reads Footprint()
      ensures InUse(b) <==> Used(View(), b)
    {
      dataStart <= b < total && bitmap[b]
    }

    method ReadBlock(b: u32) returns (ok: bool, data: Sector)
      requires Valid()
      ensures Valid() && View() == old(View())
      ensures ok ==> b < View().total && data == Load(View().disk, b) == cipher.dec(b, sectors[start + b])
      ensures !faulty && b < View().total ==> ok
    {
      ok, data := false, ZeroSector();
      if b >= total {
        return;
      }
      if faulty {
        var fail: bool := *;
        if fail {
          return;
        }
      }
      ok, data := true, cipher.dec(b, sectors[start + b]);
    }

    method WriteBlock(b: u32, data: Sector) returns (st: Status)
      requires Valid()
      modifies Footprint()
      ensures Valid()
      ensures st == OK ==> b < View().total && View() == PutBlock(old(View()), b, data)
      ensures st == OK ==> sectors[..] == old(sectors[..])[start + b := cipher.enc(b, data)]
      ensures st != OK ==> View() == old(View())
      ensures b < View().total && Reliable() ==> st == OK
      ensures b < View().total && protect && protectStart <= start + b ==> st == ENOSPC
      ensures st == OK || st == Failed || st == ENOSPC
    {
      if b >= total {
        return Failed;
      }
      if protect && protectStart <= start + b {
        return ENOSPC;
      }
      if faulty {
        var fail: bool := *;
        if fail {
          return Failed;
        }
      }
      sectors[start + b] := cipher.enc(b, data);
      disk := disk[b := data];
      assert disk == Plain(sectors[..], cipher, start, total);
      assert View().foreign == old(View()).foreign;
      return OK;
    }

    method PutInode(ino: nat, n: Inode)
      requires Valid() && ino < MAX_INODES
      modifies Footprint()
      ensures Valid()
      ensures View() == WithInode(old(View()), ino, n)
    {
      inodes[ino] := n;
      assert inodes[..] == old(inodes[..])[ino := n];
    }

    /** memset(bitmap_dirty, 0). */
    method ClearDirty()
      requires Valid()
      modifies Footprint()
      ensures Valid() && View() == CleanFlags(old(View()))
    {
      var i := 0;
      while i < dirty.Length
        invariant 0 <= i <= dirty.Length
        invariant forall j :: 0 <= j < i ==> !dirty[j]
        invariant unchanged(this) && unchanged(bitmap) && unchanged(inodes) && unchanged(sectors)
      {
        dirty[i] := false;
        i := i + 1;
      }
      assert dirty[..] == CleanFlags(old(View())).dirty;
    }

    function Bits(): (bits: seq<bool>)
      requires Valid()
      reads Footprint()
      ensures bits == View().bitmap
    {
      bitmap[..]
    }

    function Nodes(): (nodes: seq<Inode>)
      requires Valid()
      reads Footprint()
      ensures nodes == View().inodes
    {
      inodes[..]
    }

    predicate IsDirty(i: nat)
      requires Valid() && i < bitmapBlocks
      reads Footprint()
      ensures i < |View().dirty| && (IsDirty(i) <==> View().dirty[i])
    {
      dirty[i]
    }

    method PutFreeInodes(n: u32)
      requires Valid()
      modifies Footprint()
      ensures Valid()
      ensures View() == old(View()).(freeInodes := n)
    {
      freeInodes := n;
    }

    method AllocBlock() returns (r: int)
      requires Valid() && View().freeBlocks == |FreeSet(View())|
      modifies Footprint()
      ensures Valid()
      ensures r < 0 ==> View() == old(View()) && FreeSet(View()) == {}
      ensures r >= 0 ==> InData(old(View()), r) && !Used(old(View()), r) && View() == SetBit(old(View()), r)
      ensures r >= 0 ==> forall j :: View().dataStart <= j < r ==> Used(old(View()), j)
    {
      var i := dataStart;
      while i < total
        invariant dataStart <= i <= total
        invariant Valid() && View() == old(View())
        invariant forall j :: dataStart <= j < i ==> bitmap[j]
      {
        if !bitmap[i] {
          SetBitFreeSet(View(), i);
          MarkBlock(i, true, freeBlocks - 1);
          return i;
        }
        i := i + 1;
      }
      return -1;
    }

    method FreeBlock(b: u32)
      requires Valid() && View().freeBlocks == |FreeSet(View())|
      modifies Footprint()
      ensures Valid()
      ensures View() == if Used(old(View()), b) then ClearBit(old(View()), b) else old(View())
    {
      if dataStart <= b < total && bitmap[b] {
        ClearBitFreeSet(View(), b);
        MarkBlock(b, false, freeBlocks + 1);
      }
    }

    /** Sets one bit of the bitmap, its sector's dirty flag and the free counter. */
    method MarkBlock(b: nat, used: bool, free: u32)
      requires Valid() && b < total
      modifies Footprint()
      ensures Valid()
      ensures View() == Mark(old(View()), b, used, free)
    {
      bitmap[b] := used;
      assert bitmap[..] == old(bitmap[..])[b := used];
      freeBlocks := free;
      var sector := BitmapSector(b);
      if sector < dirty.Length {
        dirty[sector] := true;
      }
      assert dirty[..] == old(dirty[..])[sector := true];
    }
  }

  /** The decrypted blocks of a volume that starts at a given sector of the container. */
  ghost function Plain(sectors: seq<Sector>, cipher: Cipher, start: nat, total: nat): (disk: seq<Sector>)
    requires start + total <= |sectors|
    ensures |disk| == total
    ensures forall i :: 0 <= i < total ==> disk[i] == cipher.dec(i, sectors[start + i])
  {
    seq(total, i requires 0 <= i < total => cipher.dec(i, sectors[start + i]))
  }
}
