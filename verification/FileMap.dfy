/**
 * The block map of a file as a store of pointers. A slot names one place where a
 * block number can be kept: a field of an inode or an entry of a pointer table.
 * Ref reads a slot and SetRef writes it.
 */
module FileMap {
  import opened Base
  import opened Codec

  /** A volume: the cached metadata, the plaintext of its blocks, and all container sectors it may not write. */
  datatype Vol = Vol(total: nat, bitmapBlocks: nat, dataStart: nat,
                     bitmap: seq<bool>, dirty: seq<bool>, freeBlocks: u32, freeInodes: u32,
                     inodes: seq<Inode>, disk: seq<Sector>, foreign: map<nat, Sector>)

  /** Blocks needed for the bitmap of a volume of `total` blocks. */
  function BitmapBlocks(total: nat): (n: nat)
    ensures total <= BITS_PER_BLOCK * n
  {
    ((total + 7) / 8 + SECTOR_SIZE - 1) / SECTOR_SIZE
  }

  ghost predicate Shape(v: Vol)
  {
    && v.bitmapBlocks == BitmapBlocks(v.total)
    && v.dataStart == 1 + v.bitmapBlocks + INODE_BLOCKS
    && v.dataStart < v.total <= INT32_LIMIT
    && |v.bitmap| == BITS_PER_BLOCK * v.bitmapBlocks
    && |v.dirty| == v.bitmapBlocks
    && |v.inodes| == MAX_INODES
    && |v.disk| == v.total
  }

  /** The volume after block b was overwritten. */
  function PutBlock(v: Vol, b: nat, data: Sector): (v': Vol)
  {
    if b < |v.disk| then v.(disk := v.disk[b := data]) else v
  }

  /** The volume after inode ino was overwritten. */
  function WithInode(v: Vol, ino: nat, n: Inode): (v': Vol)
  {
    if ino < |v.inodes| then v.(inodes := v.inodes[ino := n]) else v
  }

  // ---------------------------------------------------------------- slots

  /** A place for a block number inside one file: its data blocks by logical index, and its tables. */
  datatype Loc = Data(lb: nat) | Ind | Dbl | Child(outer: nat)

  datatype Slot = Slot(ino: nat, loc: Loc)

  predicate ValidLoc(l: Loc)
  {
    match l
    case Data(lb) => lb < MAX_FILE_BLOCKS
    case Child(o) => o < POINTERS_PER_BLOCK
    case Ind => true
    case Dbl => true
  }

  predicate ValidSlot(s: Slot)
  {
    s.ino < MAX_INODES && ValidLoc(s.loc)
  }

  /** Which child table of the double-indirect root maps a logical block, and where in it. */
  function Outer(lb: nat): (o: nat)
    requires SINGLE_END <= lb
    ensures lb < MAX_FILE_BLOCKS ==> o < POINTERS_PER_BLOCK
  {
    (lb - SINGLE_END) / POINTERS_PER_BLOCK
  }

  function Inner(lb: nat): (i: nat)
    requires SINGLE_END <= lb
    ensures i < POINTERS_PER_BLOCK
  {
    (lb - SINGLE_END) % POINTERS_PER_BLOCK
  }

  /** The logical block mapped by entry i of child table o. */
  function DoubleBlock(o: nat, i: nat): (lb: nat)
    ensures lb >= SINGLE_END
  {
    SINGLE_END + o * POINTERS_PER_BLOCK + i
  }

  /** Where a logical block number is stored: the three-way split of the block map. */
  datatype Path = InInode(index: nat) | InSingle(index: nat) | InDouble(outer: nat, inner: nat)

  predicate ValidPath(p: Path)
  {
    match p
    case InInode(i) => i < DIRECT_BLOCKS
    case InSingle(i) => i < POINTERS_PER_BLOCK
    case InDouble(o, i) => o < POINTERS_PER_BLOCK && i < POINTERS_PER_BLOCK
  }

  function PathOf(lb: nat): (p: Path)
    requires lb < MAX_FILE_BLOCKS
  {
    if lb < DIRECT_BLOCKS then InInode(lb)
    else if lb < SINGLE_END then InSingle(lb - DIRECT_BLOCKS)
    else InDouble(Outer(lb), Inner(lb))
  }

  function BlockOfPath(p: Path): (lb: nat)
  {
    match p
    case InInode(i) => i
    case InSingle(i) => DIRECT_BLOCKS + i
    case InDouble(o, i) => DoubleBlock(o, i)
  }

  /** The split is a bijection between logical blocks below MAX_FILE_BLOCKS and paths. */
  lemma PathBijection(lb: nat, p: Path)
    ensures lb < MAX_FILE_BLOCKS ==> ValidPath(PathOf(lb)) && BlockOfPath(PathOf(lb)) == lb
    ensures ValidPath(p) ==> BlockOfPath(p) < MAX_FILE_BLOCKS && PathOf(BlockOfPath(p)) == p
  {
    if p.InDouble? && ValidPath(p) {
      DoubleSplit(p.outer, p.inner);
    }
  }

  lemma DoubleSplit(o: nat, i: nat)
    requires i < POINTERS_PER_BLOCK
    ensures Outer(DoubleBlock(o, i)) == o && Inner(DoubleBlock(o, i)) == i
    ensures o < POINTERS_PER_BLOCK ==> DoubleBlock(o, i) < MAX_FILE_BLOCKS
  {
  }

  lemma OuterInner(lb: nat)
    requires SINGLE_END <= lb
    ensures lb == DoubleBlock(Outer(lb), Inner(lb))
  {
  }

  /** Every byte offset below the 4 GiB limit has a path. */
  lemma EveryOffsetHasPath(offset: nat)
    requires offset < MAX_FILE_SIZE
    ensures offset / SECTOR_SIZE < MAX_FILE_BLOCKS
  {
  }

  // ------------------------------------------------------------- reading

  /** Entry i of the table in block t; no entry when t is not a block of the volume. */
  function At(d: seq<Sector>, t: u32, i: nat): (p: u32)
    requires i < POINTERS_PER_BLOCK
  {
    if t < |d| then Ptr(d[t], i) else INVALID
  }

  function Get(n: Inode, d: seq<Sector>, l: Loc): (p: u32)
    requires ValidLoc(l)
  {
    match l
    case Ind => n.indirect
    case Dbl => n.double
    case Child(o) => At(d, n.double, o)
    case Data(lb) =>
      if lb < DIRECT_BLOCKS then n.direct[lb]
      else if lb < SINGLE_END then At(d, n.indirect, lb - DIRECT_BLOCKS)
      else At(d, At(d, n.double, Outer(lb)), Inner(lb))
  }

  function Ref(v: Vol, s: Slot): (p: u32)
    requires |v.inodes| == MAX_INODES && ValidSlot(s)
  {
    Get(v.inodes[s.ino], v.disk, s.loc)
  }

  /** The physical block of logical block lb of a file, INVALID for a hole. */
  function Phys(v: Vol, ino: nat, lb: nat): (p: u32)
    requires |v.inodes| == MAX_INODES && ino < MAX_INODES && lb < MAX_FILE_BLOCKS
  {
    Ref(v, Slot(ino, Data(lb)))
  }

  /** What reading a mapped block or a hole yields. */
  function Load(d: seq<Sector>, p: u32): (s: Sector)
  {
    if p < |d| then d[p] else ZeroSector()
  }

  /** The contents of logical block lb: zeros for a hole. */
  function Block(v: Vol, ino: nat, lb: nat): (s: Sector)
    requires |v.inodes| == MAX_INODES && ino < MAX_INODES && lb < MAX_FILE_BLOCKS
  {
    Load(v.disk, Phys(v, ino, lb))
  }

  // ------------------------------------------------------------- writing

  /** The slot of the table that holds a slot, for slots that are not inode fields. */
  function Home(l: Loc): (h: Option<Loc>)
    requires ValidLoc(l)
    ensures h.Some? ==> ValidLoc(h.value)
  {
    match l
    case Ind => None
    case Dbl => None
    case Child(o) => Some(Dbl)
    case Data(lb) =>
      if lb < DIRECT_BLOCKS then None
      else if lb < SINGLE_END then Some(Ind)
      else Some(Child(Outer(lb)))
  }

  /** The position of a slot in the table that holds it. */
  function IndexIn(l: Loc): (i: nat)
    requires ValidLoc(l) && Home(l).Some?
    ensures i < POINTERS_PER_BLOCK
  {
    match l
    case Child(o) => o
    case Data(lb) => if lb < SINGLE_END then lb - DIRECT_BLOCKS else Inner(lb)
  }

  ghost predicate HasHome(v: Vol, s: Slot)
    requires |v.inodes| == MAX_INODES && ValidSlot(s)
  {
    Home(s.loc).Some? ==> Ref(v, Slot(s.ino, Home(s.loc).value)) < |v.disk|
  }

  predicate IsTable(l: Loc)
  {
    !l.Data?
  }

  ghost predicate EmptyTable(d: seq<Sector>, t: u32)
  {
    forall i :: 0 <= i < POINTERS_PER_BLOCK ==> At(d, t, i) == INVALID
  }

  function PutPtr(d: seq<Sector>, t: nat, i: nat, x: u32): (d': seq<Sector>)
    requires t < |d| && i < POINTERS_PER_BLOCK
  {
    d[t := EncodePointers(DecodePointers(d[t])[i := x])]
  }

  lemma PutPtrAt(d: seq<Sector>, t: nat, i: nat, x: u32, t': u32, j: nat)
    requires t < |d| && i < POINTERS_PER_BLOCK && j < POINTERS_PER_BLOCK
    ensures At(PutPtr(d, t, i, x), t', j) == if t' == t && j == i then x else At(d, t', j)
  {
    PointersRoundTrip(DecodePointers(d[t])[i := x]);
  }

  function SetField(n: Inode, l: Loc, x: u32): (n': Inode)
    requires ValidLoc(l) && Home(l).None?
  {
    match l
    case Ind => n.(indirect := x)
    case Dbl => n.(double := x)
    case Data(lb) => n.(direct := n.direct[lb := x])
  }

  /** The volume with block number x stored in slot s. */
  ghost function SetRef(v: Vol, s: Slot, x: u32): (v': Vol)
    requires |v.inodes| == MAX_INODES && ValidSlot(s) && HasHome(v, s)
  {
    if Home(s.loc).None? then v.(inodes := v.inodes[s.ino := SetField(v.inodes[s.ino], s.loc, x)])
    else v.(disk := PutPtr(v.disk, Ref(v, Slot(s.ino, Home(s.loc).value)), IndexIn(s.loc), x))
  }

  lemma RefViaHome(v: Vol, s: Slot)
    requires |v.inodes| == MAX_INODES && ValidSlot(s) && Home(s.loc).Some?
    ensures Ref(v, s) == At(v.disk, Ref(v, Slot(s.ino, Home(s.loc).value)), IndexIn(s.loc))
  {
  }

  lemma SameHomeSameIndex(l: Loc, l': Loc)
    requires ValidLoc(l) && ValidLoc(l') && Home(l).Some? && Home(l) == Home(l') && IndexIn(l) == IndexIn(l')
    ensures l == l'
  {
    if l.Data? && l.lb >= SINGLE_END {
      OuterInner(l.lb);
      OuterInner(l'.lb);
    }
  }
}
