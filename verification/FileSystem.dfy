/** The whole file system: inode kinds and counters, the root directory, and the map of files it stands for. */
module FileSystem {
  import opened Base
  import opened Codec
  import opened FileMap
  import opened Ownership
  import opened Growth
  import opened Files

  // ---------------------------------------------------------------- inodes

  predicate NoBlocks(n: Inode)
  {
    n.direct == NoDirects() && n.indirect == INVALID && n.double == INVALID
  }

  /** Inode i has the shape that the loader demands. */
  predicate InodeShape(n: Inode, i: nat)
  {
    if i == 0 then
      && n.kind == DIR && n.size == 0 && n.indirect == INVALID && n.double == INVALID
      && 0 < n.blockCount <= DIRECT_BLOCKS
      && forall j :: 0 <= j < DIRECT_BLOCKS ==> (j < n.blockCount <==> n.direct[j] != INVALID)
    else if n.kind == FREE then n.size == 0 && n.blockCount == 0 && NoBlocks(n)
    else n.kind == FILE && n.size <= MAX_FILE_SIZE
  }

  ghost predicate Shaped(v: Vol)
    requires |v.inodes| == MAX_INODES
  {
    forall i :: 0 <= i < MAX_INODES ==> InodeShape(v.inodes[i], i)
  }

  ghost function FreeInodeSet(v: Vol): (s: set<nat>)
    requires |v.inodes| == MAX_INODES
  {
    set i | i in Interval(0, MAX_INODES) && v.inodes[i].kind == FREE
  }

  predicate IsFile(v: Vol, i: int)
    requires |v.inodes| == MAX_INODES
  {
    0 <= i < MAX_INODES && v.inodes[i].kind == FILE
  }

  // ------------------------------------------------------------- directory

  type Name = seq<byte>

  const SLASH: byte := 47
  const DOT: byte := 46

  /** A non-empty C string that fits a directory entry and is not a path or a dot name. */
  predicate ValidName(name: Name)
  {
    && 0 < |name| < MAX_NAME_LEN
    && (forall i :: 0 <= i < |name| ==> name[i] != 0 && name[i] != SLASH)
    && name != [DOT] && name != [DOT, DOT]
  }

  function NameOf(e: Dirent): (name: Name)
  {
    if e.nameLen < MAX_NAME_LEN then e.name[..e.nameLen] else e.name
  }

  /** valid_dirent: a free entry has no name; a live one names a file inode. */
  predicate ValidDirent(e: Dirent)
  {
    if e.inode == INVALID then e.nameLen == 0
    else
      && 0 < e.inode < MAX_INODES && e.nameLen < MAX_NAME_LEN
      && e.name[e.nameLen] == 0 && ValidName(NameOf(e))
  }

  function FreeDirent(): (e: Dirent)
    ensures ValidDirent(e) && e.inode == INVALID && forall k :: 0 <= k < MAX_NAME_LEN ==> e.name[k] == 0
  {
    Dirent(INVALID, 0, seq(MAX_NAME_LEN, _ => 0))
  }

  function MakeDirent(ino: nat, name: Name): (e: Dirent)
    requires 0 < ino < MAX_INODES && ValidName(name)
    ensures ValidDirent(e) && e.inode == ino && NameOf(e) == name
    ensures e.nameLen == |name| && forall k :: |name| <= k < MAX_NAME_LEN ==> e.name[k] == 0
  {
    assert (name + seq(MAX_NAME_LEN - |name|, _ => 0))[..|name|] == name;
    Dirent(ino, |name|, name + seq(MAX_NAME_LEN - |name|, _ => 0))
  }

  function DirSlots(v: Vol): (n: nat)
    requires |v.inodes| == MAX_INODES
  {
    DIRENTS_PER_BLOCK * v.inodes[0].blockCount
  }

  /** Directory slot k, counted across the blocks of the root directory. */
  function EntryAt(v: Vol, k: nat): (e: Dirent)
    requires |v.inodes| == MAX_INODES && k < DIRENTS_PER_BLOCK * DIRECT_BLOCKS
  {
    DecodeDirent(Block(v, 0, k / DIRENTS_PER_BLOCK), k % DIRENTS_PER_BLOCK)
  }

  /** Slot k of the directory holds an entry in use. */
  predicate Live(v: Vol, k: int)
    requires |v.inodes| == MAX_INODES
  {
    0 <= k < DirSlots(v) && k < DIRENTS_PER_BLOCK * DIRECT_BLOCKS && EntryAt(v, k).inode != INVALID
  }

  function InoAt(v: Vol, k: nat): (ino: u32)
    requires |v.inodes| == MAX_INODES && Live(v, k)
  {
    EntryAt(v, k).inode
  }

  function NameAt(v: Vol, k: nat): (name: Name)
    requires |v.inodes| == MAX_INODES && Live(v, k)
  {
    NameOf(EntryAt(v, k))
  }

  /** Every entry is well formed, live entries have distinct names and pair off with the files. */
  ghost predicate DirOk(v: Vol)
    requires |v.inodes| == MAX_INODES
  {
    && (forall k :: 0 <= k < DirSlots(v) && k < DIRENTS_PER_BLOCK * DIRECT_BLOCKS ==> ValidDirent(EntryAt(v, k)))
    && (forall k :: Live(v, k) ==> IsFile(v, InoAt(v, k)))
    && (forall j, k :: Live(v, j) && Live(v, k) && InoAt(v, j) == InoAt(v, k) ==> j == k)
    && (forall j, k :: Live(v, j) && Live(v, k) && NameAt(v, j) == NameAt(v, k) ==> j == k)
    && (forall i :: IsFile(v, i) ==> Listed(v, i))
  }

  ghost predicate Listed(v: Vol, ino: nat)
    requires |v.inodes| == MAX_INODES
  {
    exists k :: Live(v, k) && InoAt(v, k) == ino
  }

  // ------------------------------------------------------------ invariants

  /** What holds on every path that no host failure disturbs. */
  ghost predicate Consistent(v: Vol, own: Owners)
  {
    && Mapping(v, own) && Shaped(v)
    && v.freeInodes == |FreeInodeSet(v)|
    && DirOk(v)
  }

  /** No file maps a block past its size. */
  ghost predicate NothingPast(v: Vol)
    requires |v.inodes| == MAX_INODES
  {
    forall i, lb :: IsFile(v, i) && 0 <= lb < MAX_FILE_BLOCKS && Phys(v, i, lb) != INVALID ==>
          lb < BlocksFor(v.inodes[i].size)
  }

  /** What the loader accepts. */
  ghost predicate Sound(v: Vol, own: Owners)
  {
    Consistent(v, own) && NothingPast(v)
  }

  /** Bytes past the end of a file are zeros. */
  ghost predicate ZeroTail(v: Vol)
    requires |v.inodes| == MAX_INODES
  {
    forall i, k :: IsFile(v, i) && v.inodes[i].size <= k < MAX_BYTES ==> ByteAt(v, i, k) == 0
  }

  /** The invariant of successful calls. */
  ghost predicate Good(v: Vol, own: Owners)
  {
    Sound(v, own) && ZeroTail(v)
  }

  // ------------------------------------------------------------ abstraction

  function Contents(v: Vol, ino: nat): (c: seq<byte>)
    requires |v.inodes| == MAX_INODES && ino < MAX_INODES
  {
    seq(Min(v.inodes[ino].size, MAX_BYTES), k requires 0 <= k < MAX_BYTES => ByteAt(v, ino, k))
  }

  type FileTable = map<Name, seq<byte>>

  /** The table of files that a volume stands for. */
  ghost predicate Represents(v: Vol, fs: FileTable)
    requires |v.inodes| == MAX_INODES
  {
    && (forall k :: Live(v, k) && InoAt(v, k) < MAX_INODES ==>
          NameAt(v, k) in fs && fs[NameAt(v, k)] == Contents(v, InoAt(v, k)))
    && (forall name :: name in fs ==> Named(v, name))
  }

  ghost predicate Named(v: Vol, name: Name)
    requires |v.inodes| == MAX_INODES
  {
    exists k :: Live(v, k) && NameAt(v, k) == name
  }

  ghost function Names(v: Vol): (names: set<Name>)
    requires |v.inodes| == MAX_INODES
    ensures forall name :: name in names <==> Named(v, name)
  {
    set k | 0 <= k < DIRENTS_PER_BLOCK * DIRECT_BLOCKS && Live(v, k) :: NameAt(v, k)
  }

  ghost function SlotOf(v: Vol, name: Name): (k: nat)
    requires |v.inodes| == MAX_INODES && Named(v, name)
    ensures Live(v, k) && NameAt(v, k) == name
  {
    var k :| Live(v, k) && NameAt(v, k) == name; k
  }

  /** The files by name. */
  ghost function Table(v: Vol): (fs: FileTable)
    requires |v.inodes| == MAX_INODES && DirOk(v)
  {
    map name | name in Names(v) :: Contents(v, InoAt(v, SlotOf(v, name)))
  }

  /** A volume with a good directory stands for exactly one table of files. */
  lemma TableUnique(v: Vol, fs: FileTable)
    requires |v.inodes| == MAX_INODES && DirOk(v)
    ensures Represents(v, fs) <==> fs == Table(v)
  {
    hide Contents, EntryAt;
    forall k | Live(v, k)
      ensures NameAt(v, k) in Table(v) && Table(v)[NameAt(v, k)] == Contents(v, InoAt(v, k))
    {
      assert Named(v, NameAt(v, k));
      assert SlotOf(v, NameAt(v, k)) == k;
    }
    if Represents(v, fs) {
      forall name | name in fs ensures name in Table(v) && fs[name] == Table(v)[name] {
        assert Named(v, name);
      }
      forall name | name in Table(v) ensures name in fs {
        assert Named(v, name);
      }
      assert fs == Table(v);
    }
  }
}
