/** Constants, machine-word types and error codes of the DenyFS volume format. */
module Base {

  const SECTOR_SIZE: nat := 4096
  const DIRECT_BLOCKS: nat := 20
  const POINTERS_PER_BLOCK: nat := 1024
  const SINGLE_END: nat := 20 + 1024
  const MAX_FILE_BLOCKS: nat := 20 + 1024 + 1024 * 1024
  const MIB: nat := 1024 * 1024
  const MAX_FILE_SIZE: nat := 4 * 1024 * 1024 * 1024
  const MAX_INODES: nat := 64
  const INODE_SIZE: nat := 128
  const INODES_PER_BLOCK: nat := 32
  const INODE_BLOCKS: nat := 2
  const DIRENT_SIZE: nat := 256
  const DIRENTS_PER_BLOCK: nat := 16
  const MAX_NAME_LEN: nat := 251
  const BITS_PER_BLOCK: nat := 8 * SECTOR_SIZE
  const INT32_LIMIT: nat := 0x8000_0000
  const INT_MAX: nat := INT32_LIMIT - 1
  const SB_MAGIC: u64 := 0x44656e7946533033

  /** DENYFS_INVALID_BLOCK and DENYFS_INVALID_INO: the all-ones word. */
  const INVALID: u32 := 0xFFFF_FFFF

  type byte = x: int | 0 <= x < 256
  type u32 = x: int | 0 <= x < 0x1_0000_0000
  type u64 = x: int | 0 <= x < 0x1_0000_0000_0000_0000

  /** One block of plaintext, or one sector of ciphertext. */
  type Sector = s: seq<byte> | |s| == SECTOR_SIZE witness seq(SECTOR_SIZE, _ => 0)

  function ZeroSector(): (s: Sector)
    ensures forall k :: 0 <= k < SECTOR_SIZE ==> s[k] == 0
  {
    seq(SECTOR_SIZE, _ => 0)
  }

  /** What the C functions return: 0, one of the negated errno values, or -1 (Failed). */
  datatype Status = OK | Failed | EINVAL | EIO | EACCES | ENOSPC | ENOENT | EEXIST | EISDIR | ENAMETOOLONG

  datatype Option<+T> = None | Some(value: T)

  function Min(a: int, b: int): (m: int)
  {
    if a <= b then a else b
  }

  function Max(a: int, b: int): (m: int)
  {
    if a <= b then b else a
  }

  /** The number of blocks that `size` bytes occupy: size / SECTOR_SIZE rounded up. */
  function BlocksFor(size: nat): (n: nat)
  {
    (size + SECTOR_SIZE - 1) / SECTOR_SIZE
  }

  /** A subset of a finite set that is as large as the set is the set itself. */
  lemma SubsetOfSameSize<T>(small: set<T>, big: set<T>)
    requires small <= big && |small| == |big|
    ensures small == big
  {
    if small != big {
      var x :| x in big && x !in small;
      SubsetSize(small, big - {x});
    }
  }

  lemma {:induction false} SubsetSize<T>(small: set<T>, big: set<T>)
    requires small <= big
    ensures |small| <= |big|
    decreases small
  {
    if small != {} {
      var x :| x in small;
      SubsetSize(small - {x}, big - {x});
    }
  }

  /** The integers from lo up to but not including hi. */
  function Interval(lo: nat, hi: nat): (range: set<nat>)
    ensures forall b: nat :: b in range <==> lo <= b < hi
    ensures lo <= hi ==> |range| == hi - lo
    decreases hi
  {
    if hi <= lo then {} else Interval(lo, hi - 1) + {hi - 1}
  }
}
