/** How much space files of given sizes take, and what the dashboard's size check promises. */
module Capacity {
  import opened Base
  import opened Codec
  import opened FileMap
  import opened Ownership
  import opened Growth
  import opened Files
  import opened Bytes
  import opened FileSystem
  import opened FileOps
  import opened BlockMap
  import opened Resizing
  import opened Create
  import opened Scan
  import opened Reclaim
  import opened Runs
  import opened Dirents
  import opened Directory
  import opened Persist

  // ------------------------------------------------------------ slots of a file

  /** All slots on the paths of the first n logical blocks. */
  function PathSlots(n: nat): (locs: set<Loc>)
    requires n <= MAX_FILE_BLOCKS
  {
    if n == 0 then {} else PathSlots(n - 1) + Need(n - 1)
  }

  /** Blocks that a file without holes of n data blocks occupies, tables included. */
  function Cost(n: nat): (c: nat)
  {
    n + (if n > DIRECT_BLOCKS then 1 else 0)
      + (if n > SINGLE_END then 1 + (n - SINGLE_END + POINTERS_PER_BLOCK - 1) / POINTERS_PER_BLOCK else 0)
  }

  /** Which slots those are: a table is among them as soon as one of its entries is. */
  lemma {:induction false} PathSlot(n: nat, l: Loc)
    requires n <= MAX_FILE_BLOCKS && ValidLoc(l)
    ensures l in PathSlots(n) <==>
            match l
            case Data(lb) => lb < n
            case Ind => n > DIRECT_BLOCKS
            case Dbl => n > SINGLE_END
            case Child(o) => n > DoubleBlock(o, 0)
    decreases n
  {
    if n > 0 {
      PathSlot(n - 1, l);
      if l.Child? && n - 1 >= SINGLE_END { ChildBlocks(l.outer, n - 1); }
    }
  }

  lemma ChildBlocks(o: nat, lb: nat)
    requires SINGLE_END <= lb < MAX_FILE_BLOCKS
    ensures Outer(lb) == o ==> lb >= DoubleBlock(o, 0)
    ensures lb == DoubleBlock(o, 0) ==> Outer(lb) == o
    ensures lb >= DoubleBlock(Outer(lb), 0) && (Inner(lb) == 0 <==> lb == DoubleBlock(Outer(lb), 0))
  {
    OuterInner(lb);
  }

  lemma {:induction false} PathSlotsValid(n: nat, l: Loc)
    requires n <= MAX_FILE_BLOCKS && l in PathSlots(n)
    ensures ValidLoc(l)
    decreases n
  {
    if l !in Need(n - 1) { PathSlotsValid(n - 1, l); }
  }

  lemma CostStep(n: nat)
    ensures Cost(n + 1) == Cost(n) + 1 + (if n == DIRECT_BLOCKS then 1 else 0) + (if n == SINGLE_END then 1 else 0)
                           + (if n >= SINGLE_END && (n - SINGLE_END) % POINTERS_PER_BLOCK == 0 then 1 else 0)
  {
  }

  /** The path slots of n blocks are exactly Cost(n) many. */
  lemma {:induction false} PathSlotsCount(n: nat)
    requires n <= MAX_FILE_BLOCKS
    ensures |PathSlots(n)| == Cost(n)
    decreases n
  {
    if n > 0 {
      var lb := n - 1;
      PathSlotsCount(lb);
      CostStep(lb);
      PathSlot(lb, Data(lb));
      PathSlot(lb, Ind);
      PathSlot(lb, Dbl);
      if lb >= SINGLE_END {
        PathSlot(lb, Child(Outer(lb)));
        ChildBlocks(Outer(lb), lb);
      }
      hide Cost, PathSlots;
      OneMorePath(lb);
    }
  }

  lemma OneMorePath(lb: nat)
    requires lb < MAX_FILE_BLOCKS
    requires Data(lb) !in PathSlots(lb) && (Ind in PathSlots(lb) <==> lb > DIRECT_BLOCKS) && (Dbl in PathSlots(lb) <==>
              lb > SINGLE_END)
    requires lb >= SINGLE_END ==> (Child(Outer(lb)) in PathSlots(lb) <==> Inner(lb) != 0)
    ensures |PathSlots(lb + 1)| == |PathSlots(lb)| + 1 + (if lb == DIRECT_BLOCKS then 1 else 0)
                                   + (if lb == SINGLE_END then 1 else 0)
                                   + (if lb >= SINGLE_END && Inner(lb) == 0 then 1 else 0)
  {
    PathStep(lb);
    hide PathSlots, Outer, Inner;
    var a := PathSlots(lb);
    AddOne(a, Data(lb));
    if lb < DIRECT_BLOCKS {
      assert a + Need(lb) == a + {Data(lb)};
    } else if lb < SINGLE_END {
      AddOne(a + {Data(lb)}, Ind);
      assert a + Need(lb) == a + {Data(lb)} + {Ind};
    } else {
      AddOne(a + {Data(lb)}, Dbl);
      AddOne(a + {Data(lb)} + {Dbl}, Child(Outer(lb)));
      assert a + Need(lb) == a + {Data(lb)} + {Dbl} + {Child(Outer(lb))};
    }
  }

  lemma PathStep(lb: nat)
    requires lb < MAX_FILE_BLOCKS
    ensures PathSlots(lb + 1) == PathSlots(lb) + Need(lb)
  {
  }

  lemma AddOne<T>(a: set<T>, x: T)
    ensures |a + {x}| == |a| + (if x in a then 0 else 1)
  {
    if x in a { assert a + {x} == a; }
  }

  // ------------------------------------------------------- slots in use, by file

  /** The slots of a file that refer to blocks. */
  ghost function UsedSlots(v: Vol, ino: nat): (locs: set<Loc>)
    requires |v.inodes| == MAX_INODES && ino < MAX_INODES
  {
    set l | l in PathSlots(MAX_FILE_BLOCKS) && ValidLoc(l) && Ref(v, Slot(ino, l)) != INVALID
  }

  lemma UsedSlot(v: Vol, ino: nat, l: Loc)
    requires |v.inodes| == MAX_INODES && ino < MAX_INODES && ValidLoc(l)
    ensures l in UsedSlots(v, ino) <==> Ref(v, Slot(ino, l)) != INVALID
  {
    hide Ref, PathSlots;
    PathSlot(MAX_FILE_BLOCKS, l);
    if l.Child? { DoubleSplit(l.outer, 0); }
  }

  /** A slot in use lies on the path of some mapped block, so on the first n paths when nothing past n is mapped. */
  lemma UsedWithin(v: Vol, ino: nat, n: nat)
    requires Shape(v) && ino < MAX_INODES && NoHollow(v, {}) && n <= MAX_FILE_BLOCKS
    requires forall lb :: 0 <= lb < MAX_FILE_BLOCKS && Phys(v, ino, lb) != INVALID ==> lb < n
    ensures UsedSlots(v, ino) <= PathSlots(n)
  {
    hide Ref, BitmapBlocks, Hollow, PathSlots;
    forall l | l in UsedSlots(v, ino)
      ensures l in PathSlots(n)
    {
      var lb := ServedBlock(v, ino, l);
      NeedWithin(n, lb, l);
    }
  }

  lemma {:induction false} NeedWithin(n: nat, lb: nat, l: Loc)
    requires lb < n <= MAX_FILE_BLOCKS && l in Need(lb)
    ensures l in PathSlots(n)
    decreases n
  {
    hide Need;
    if lb < n - 1 { NeedWithin(n - 1, lb, l); }
  }

  /** The blocks that a file owns are as many as its slots in use. */
  ghost function OwnedBy(own: Owners, ino: nat): (bs: set<nat>)
  {
    set b | b in own && own[b].ino == ino
  }

  lemma {:induction false} AtMostSlots(v: Vol, own: Owners, ino: nat, bs: set<nat>, used: set<Loc>)
    requires |v.inodes| == MAX_INODES && ino < MAX_INODES && OwnersRefer(v, own, {})
    requires forall b :: b in bs ==> b in own && own[b].ino == ino && own[b].loc in used
    ensures |bs| <= |used|
    decreases bs
  {
    hide Ref;
    if bs != {} {
      var b :| b in bs;
      forall c | c in bs - {b}
        ensures own[c].loc in used - {own[b].loc}
      {
        assert own[c] == Slot(ino, own[c].loc) && own[b] == Slot(ino, own[b].loc);
      }
      AtMostSlots(v, own, ino, bs - {b}, used - {own[b].loc});
    }
  }

  lemma OwnedBound(v: Vol, own: Owners, ino: nat)
    requires Core(v, own, {}) && |v.inodes| == MAX_INODES && ino < MAX_INODES
    ensures |OwnedBy(own, ino)| <= |UsedSlots(v, ino)|
  {
    hide Ref, FreeSet, BitsExact, RefsOwned, BitmapBlocks, UsedSlots;
    forall b | b in OwnedBy(own, ino)
      ensures own[b].loc in UsedSlots(v, ino)
    {
      assert own[b] == Slot(ino, own[b].loc) && Ref(v, own[b]) == b;
      OwnedNumber(v, own, b);
      UsedSlot(v, ino, own[b].loc);
    }
    AtMostSlots(v, own, ino, OwnedBy(own, ino), UsedSlots(v, ino));
  }

  lemma OwnedNumber(v: Vol, own: Owners, b: nat)
    requires Core(v, own, {}) && b in own
    ensures b != INVALID
  {
    hide Ref, FreeSet, BitsExact, RefsOwned;
  }

  /** The blocks owned by the inodes below n. */
  ghost function OwnedBelow(own: Owners, n: nat): (bs: set<nat>)
  {
    set b | b in own && own[b].ino < n
  }

  /** The blocks up to which an inode may map: the root's own, a file's by its size. */
  function Extent(v: Vol, ino: nat): (n: nat)
    requires |v.inodes| == MAX_INODES && ino < MAX_INODES
  {
    if ino == 0 then v.inodes[0].blockCount else BlocksFor(v.inodes[ino].size)
  }

  lemma ExtentHolds(v: Vol, own: Owners, ino: nat)
    requires Sound(v, own) && |v.inodes| == MAX_INODES && ino < MAX_INODES
    ensures Extent(v, ino) <= MAX_FILE_BLOCKS && UsedSlots(v, ino) <= PathSlots(Extent(v, ino))
  {
    hide Ref, BitmapBlocks, UsedSlots, PathSlots, Core, Counted, NoHollow, DirOk, FreeInodeSet;
    SoundCore(v, own);
    assert InodeShape(v.inodes[ino], ino);
    if ino == 0 {
      forall lb | 0 <= lb < MAX_FILE_BLOCKS && Phys(v, ino, lb) != INVALID
        ensures lb < Extent(v, 0)
      {
        RootRefs(v, own, Data(lb));
      }
    } else if v.inodes[ino].kind == FREE {
      EmptyRefs(v, ino);
    }
    UsedWithin(v, ino, Extent(v, ino));
  }

  lemma InodeCost(v: Vol, own: Owners, ino: nat)
    requires Sound(v, own) && |v.inodes| == MAX_INODES && ino < MAX_INODES
    ensures |OwnedBy(own, ino)| <= Cost(Extent(v, ino))
  {
    hide *;
    SoundCore(v, own);
    OwnedBound(v, own, ino);
    ExtentHolds(v, own, ino);
    SubsetSize(UsedSlots(v, ino), PathSlots(Extent(v, ino)));
    PathSlotsCount(Extent(v, ino));
  }

  lemma OwnedStep(own: Owners, n: nat)
    ensures |OwnedBelow(own, n + 1)| == |OwnedBelow(own, n)| + |OwnedBy(own, n)|
  {
    assert OwnedBelow(own, n + 1) == OwnedBelow(own, n) + OwnedBy(own, n);
    assert OwnedBelow(own, n) !! OwnedBy(own, n);
    assert |OwnedBelow(own, n) + OwnedBy(own, n)| == |OwnedBelow(own, n)| + |OwnedBy(own, n)|;
  }

  // ------------------------------------------------- when a write has the space

  /** What a write still needs and what the file has fit on the paths of its blocks after the write. */
  lemma NeedAndUsed(v: Vol, own: Owners, ino: nat, offset: nat, len: nat, n: nat)
    requires Sound(v, own) && |v.inodes| == MAX_INODES && ino < MAX_INODES && offset + len <= MAX_FILE_SIZE
    requires n <= MAX_FILE_BLOCKS && Extent(v, ino) <= n && BlocksFor(offset + len) <= n
    ensures |SpaceNeeded(v, ino, offset, len)| + |OwnedBy(own, ino)| <= Cost(n)
  {
    hide *;
    SoundCore(v, own);
    OwnedBound(v, own, ino);
    ExtentHolds(v, own, ino);
    PathsGrow(Extent(v, ino), n);
    NeedOnPaths(v, ino, offset, len, n);
    DisjointFit(SpaceNeeded(v, ino, offset, len), UsedSlots(v, ino), PathSlots(n));
    PathSlotsCount(n);
  }

  lemma DisjointFit(a: set<Loc>, b: set<Loc>, c: set<Loc>)
    requires a !! b && a <= c && b <= c
    ensures |a| + |b| <= |c|
  {
    SubsetSize(a + b, c);
    assert |a + b| == |a| + |b|;
  }

  lemma {:induction false} PathsGrow(m: nat, n: nat)
    requires m <= n <= MAX_FILE_BLOCKS
    ensures PathSlots(m) <= PathSlots(n)
    decreases n
  {
    if m < n { PathsGrow(m, n - 1); }
  }

  lemma NeedOnPaths(v: Vol, ino: nat, offset: nat, len: nat, n: nat)
    requires |v.inodes| == MAX_INODES && ino < MAX_INODES && offset + len <= MAX_FILE_SIZE
             && BlocksFor(offset + len) <= n <= MAX_FILE_BLOCKS
    ensures SpaceNeeded(v, ino, offset, len) <= PathSlots(n) && SpaceNeeded(v, ino, offset, len) !! UsedSlots(v, ino)
  {
    hide Ref, PathSlots, Missing;
    if len > 0 { RangeOnPaths(v, ino, offset / SECTOR_SIZE, BlocksFor(offset + len), n); }
  }

  lemma {:induction false} RangeOnPaths(v: Vol, ino: nat, lo: nat, hi: nat, n: nat)
    requires |v.inodes| == MAX_INODES && ino < MAX_INODES && hi <= n <= MAX_FILE_BLOCKS
    ensures MissingRange(v, ino, lo, hi) <= PathSlots(n)
    ensures forall l :: l in MissingRange(v, ino, lo, hi) ==> ValidLoc(l) && Ref(v, Slot(ino, l)) == INVALID
    decreases hi
  {
    hide Ref, PathSlots, Need;
    if lo < hi {
      RangeOnPaths(v, ino, lo, hi - 1, n);
      forall l | l in Missing(v, ino, hi - 1)
        ensures l in PathSlots(n)
      {
        NeedWithin(n, hi - 1, l);
      }
    }
  }

  /** The costs of all inodes but one, below n. */
  ghost function CostWithout(v: Vol, n: nat, ino: nat): (c: nat)
    requires |v.inodes| == MAX_INODES && n <= MAX_INODES
  {
    if n == 0 then 0 else CostWithout(v, n - 1, ino) + (if n - 1 == ino then 0 else Cost(Extent(v, n - 1)))
  }

  lemma {:induction false} OwnedByOthers(v: Vol, own: Owners, n: nat, ino: nat)
    requires Sound(v, own) && |v.inodes| == MAX_INODES && n <= MAX_INODES
    ensures |OwnedBelow(own, n)| <= CostWithout(v, n, ino) + (if ino < n then |OwnedBy(own, ino)| else 0)
    decreases n
  {
    hide Sound, Cost, Extent, OwnedBy;
    if n > 0 {
      OwnedByOthers(v, own, n - 1, ino);
      InodeCost(v, own, n - 1);
      OwnedStep(own, n - 1);
    } else {
      assert OwnedBelow(own, 0) == {};
    }
  }

  lemma AllOwned(v: Vol, own: Owners)
    requires Core(v, own, {})
    ensures |OwnedBelow(own, MAX_INODES)| == |own|
  {
    hide Ref, FreeSet, BitsExact, RefsOwned;
    assert OwnedBelow(own, MAX_INODES) == own.Keys;
    assert |own.Keys| == |own|;
  }

  /**
   * Space depends on sizes alone: if the files, with the written one at its new size, fit the data
   * area at their full cost, the write does not run out of space, wherever holes and tables are.
   */
  lemma WriteFits(v: Vol, own: Owners, ino: nat, offset: nat, len: nat)
    requires Sound(v, own) && |v.inodes| == MAX_INODES && 0 < ino < MAX_INODES && offset + len <= MAX_FILE_SIZE
    requires v.inodes[ino].size <= MAX_FILE_SIZE
    requires CostWithout(v, MAX_INODES, ino) + Cost(BlocksFor(Max(v.inodes[ino].size, offset + len)))
             <= v.total - v.dataStart
    ensures |SpaceNeeded(v, ino, offset, len)| <= v.freeBlocks
  {
    hide Sound, Cost, SpaceNeeded, CostWithout, OwnedBy, OwnedBelow;
    var n := BlocksFor(Max(v.inodes[ino].size, offset + len));
    SoundConservation(v, own);
    NewExtent(v, ino, offset, len);
    NeedAndUsed(v, own, ino, offset, len, n);
    OwnedByOthers(v, own, MAX_INODES, ino);
  }

  lemma SoundConservation(v: Vol, own: Owners)
    requires Sound(v, own)
    ensures v.freeBlocks + |own| == v.total - v.dataStart && |OwnedBelow(own, MAX_INODES)| == |own|
  {
    hide *;
    SoundCore(v, own);
    Conservation(v, own, {});
    AllOwned(v, own);
  }

  lemma NewExtent(v: Vol, ino: nat, offset: nat, len: nat)
    requires |v.inodes| == MAX_INODES && 0 < ino < MAX_INODES && offset + len <= MAX_FILE_SIZE
             && v.inodes[ino].size <= MAX_FILE_SIZE
    ensures var n := BlocksFor(Max(v.inodes[ino].size, offset + len));
            Extent(v, ino) <= n <= MAX_FILE_BLOCKS && BlocksFor(offset + len) <= n
  {
  }

  // ------------------------------------------------------ the dashboard's check

  /** The size check before an upload: `total` bytes of files against a volume of `volume` bytes. */
  predicate Precheck(total: nat, volume: nat)
  {
    total + Max(5 * MIB, total / 1024) <= volume
  }

  /**
   * For every total the check asks for two things beside the files' bytes, and refuses only when one of
   * them is missing: 5 MiB, and a byte for every 1024 bytes. The second is a pointer table for every
   * 1024 blocks of data.
   */
  lemma SlackLeft(total: nat, volume: nat)
    ensures Precheck(total, volume) <==> total + 0x50_0000 <= volume && total < 1024 * (volume - total + 1)
    ensures Precheck(total, volume) ==> total / 4096 + total / 4096 / 1024 <= volume / 4096
    ensures !Precheck(total, volume) ==> volume < total + 0x50_0000 || 1024 * (volume - total) < total
  {
    assert total / 4096 / 1024 == total / 1024 / 4096;
  }

  /** Past 5 GiB the second decides: 6 GiB need a 12300 MiB container. */
  lemma SixGib()
    ensures Precheck(6 * 1024 * MIB, 12300 * MIB / 2) && !Precheck(6 * 1024 * MIB, 12298 * MIB / 2)
    ensures 6 * 1024 * MIB + 5 * MIB <= 12298 * MIB / 2
  {
  }

  /** The sizes of all files below inode n but one, added up. */
  ghost function SizesWithout(v: Vol, n: nat, ino: nat): (s: nat)
    requires |v.inodes| == MAX_INODES && n <= MAX_INODES
  {
    if n == 0 then 0 else SizesWithout(v, n - 1, ino) + (if n - 1 == ino || n - 1 == 0 then 0 else v.inodes[n - 1].size)
  }

  const TABLE_BYTES: nat := 1024 * 4096
  const FILE_SLACK: nat := 1025 * 4095 + 2 * 1024 * 4096

  /** A linear bound on the cost of a file: 1025 blocks for every 1024 blocks of data, and a little more. */
  lemma FileCost(size: nat)
    ensures TABLE_BYTES * Cost(BlocksFor(size)) <= 1025 * size + FILE_SLACK
  {
    var n := BlocksFor(size);
    assert 4096 * n <= size + 4095;
    assert 1024 * Cost(n) <= 1025 * n + 2048;
  }

  lemma RootCost(bc: nat)
    requires bc <= DIRECT_BLOCKS
    ensures Cost(bc) == bc
  {
  }

  /** All files but one, and the root directory, by their sizes. */
  lemma {:induction false} OthersCost(v: Vol, n: nat, ino: nat)
    requires |v.inodes| == MAX_INODES && 0 < n <= MAX_INODES && 0 < ino && v.inodes[0].blockCount <= 4
    ensures TABLE_BYTES * CostWithout(v, n, ino) <=
            TABLE_BYTES * 4 + 1025 * SizesWithout(v, n, ino) + FILE_SLACK * (n - 1 - (if ino < n then 1 else 0))
    decreases n
  {
    hide Cost, BlocksFor;
    if n == 1 {
      RootCost(v.inodes[0].blockCount);
      assert CostWithout(v, 1, ino) == CostWithout(v, 0, ino) + Cost(Extent(v, 0));
    } else {
      OthersCost(v, n - 1, ino);
      FileCost(v.inodes[n - 1].size);
    }
  }

  /** Blocks for metadata of a volume. */
  lemma MetadataBound(total: nat)
    ensures 32768 * BitmapBlocks(total) <= total + 2 * 32768
  {
  }

  /** Files of at most 4 GiB in all that pass the check cost no more than the data area has, with 4 directory blocks. */
  lemma PrecheckArithmetic(total: nat, bytes: nat, cost: nat)
    requires bytes <= MAX_FILE_SIZE && Precheck(bytes, total * SECTOR_SIZE)
    requires TABLE_BYTES * cost <= TABLE_BYTES * 4 + 1025 * bytes + FILE_SLACK * 63
    ensures cost <= total - (3 + BitmapBlocks(total))
  {
    MetadataBound(total);
    hide BitmapBlocks;
    assert 4096 * total >= bytes + 5 * MIB;
  }

  /**
   * The capacity theorem. On a sound volume whose root directory has at most 4 blocks: when the files,
   * the written one at its new size, total at most 4 GiB and pass the check, the write has its space.
   */
  lemma CapacityTheorem(v: Vol, own: Owners, ino: nat, offset: nat, len: nat, bytes: nat)
    requires Sound(v, own) && |v.inodes| == MAX_INODES && v.inodes[0].blockCount <= 4 && 0 < ino < MAX_INODES
    requires offset + len <= MAX_FILE_SIZE && v.inodes[ino].size <= MAX_FILE_SIZE
    requires SizesWithout(v, MAX_INODES, ino) + Max(v.inodes[ino].size, offset + len) == bytes <= MAX_FILE_SIZE
    requires Precheck(bytes, v.total * SECTOR_SIZE)
    ensures |SpaceNeeded(v, ino, offset, len)| <= v.freeBlocks
  {
    hide *;
    SoundCore(v, own);
    SizesCost(v, ino, offset, len, bytes);
    WriteFits(v, own, ino, offset, len);
  }

  lemma SizesCost(v: Vol, ino: nat, offset: nat, len: nat, bytes: nat)
    requires Shape(v) && |v.inodes| == MAX_INODES && v.inodes[0].blockCount <= 4 && 0 < ino < MAX_INODES
    requires SizesWithout(v, MAX_INODES, ino) + Max(v.inodes[ino].size, offset + len) == bytes <= MAX_FILE_SIZE
    requires Precheck(bytes, v.total * SECTOR_SIZE)
    ensures CostWithout(v, MAX_INODES, ino) + Cost(BlocksFor(Max(v.inodes[ino].size, offset + len)))
            <= v.total - v.dataStart
  {
    hide Cost, CostWithout, SizesWithout, BitmapBlocks, Precheck, BlocksFor;
    var size: nat := Max(v.inodes[ino].size, offset + len);
    OthersCost(v, MAX_INODES, ino);
    FileCost(size);
    PrecheckArithmetic(v.total, bytes, CostWithout(v, MAX_INODES, ino) + Cost(BlocksFor(size)));
  }

  /** There is also a block left for the directory, should it have to grow. */
  lemma DirectoryFits(v: Vol, own: Owners, bytes: nat)
    requires Sound(v, own) && |v.inodes| == MAX_INODES && v.inodes[0].blockCount <= 3
    requires SizesWithout(v, MAX_INODES, MAX_INODES) == bytes <= MAX_FILE_SIZE && Precheck(bytes, v.total * SECTOR_SIZE)
    ensures v.freeBlocks >= 1
  {
    hide *;
    SoundCore(v, own);
    SoundConservation(v, own);
    OwnedByOthers(v, own, MAX_INODES, MAX_INODES);
    SmallDirectoryCost(v, bytes);
  }

  lemma SmallDirectoryCost(v: Vol, bytes: nat)
    requires Shape(v) && v.inodes[0].blockCount <= 3
    requires SizesWithout(v, MAX_INODES, MAX_INODES) == bytes <= MAX_FILE_SIZE && Precheck(bytes, v.total * SECTOR_SIZE)
    ensures CostWithout(v, MAX_INODES, MAX_INODES) + 1 <= v.total - v.dataStart
    ensures !(MAX_INODES < MAX_INODES)
  {
    hide Cost, CostWithout, SizesWithout, BitmapBlocks, Precheck, BlocksFor;
    SmallRootCost(v, MAX_INODES);
    PrecheckArithmetic(v.total, bytes, CostWithout(v, MAX_INODES, MAX_INODES) + 1);
  }

  lemma {:induction false} SmallRootCost(v: Vol, n: nat)
    requires |v.inodes| == MAX_INODES && 0 < n <= MAX_INODES && v.inodes[0].blockCount <= 3
    ensures TABLE_BYTES * (CostWithout(v, n, MAX_INODES) + 1) <=
            TABLE_BYTES * 4 + 1025 * SizesWithout(v, n, MAX_INODES) + FILE_SLACK * (n - 1)
    decreases n
  {
    hide Cost, BlocksFor;
    if n == 1 {
      RootCost(v.inodes[0].blockCount);
      assert CostWithout(v, 1, MAX_INODES) == CostWithout(v, 0, MAX_INODES) + Cost(Extent(v, 0));
    } else {
      SmallRootCost(v, n - 1);
      FileCost(v.inodes[n - 1].size);
    }
  }

  /** The documented case: a full 4 GiB file passes the check on a 4101 MiB volume, and not on a 4100 MiB one. */
  lemma FourGibFile()
    ensures Precheck(MAX_FILE_SIZE, 4101 * MIB) && !Precheck(MAX_FILE_SIZE, 4100 * MIB)
    ensures Cost(BlocksFor(MAX_FILE_SIZE)) == 1049601
  {
  }

  // ---------------------------------------------- where the check is not enough

  /** What full files of these sizes cost altogether. */
  function TotalCost(sizes: seq<nat>): (c: nat)
  {
    if sizes == [] then 0 else Cost(BlocksFor(sizes[0])) + TotalCost(sizes[1..])
  }

  /**
   * Past 4 GiB the check can pass and the files not fit: 4 GiB and 1 GiB in the 5125 MiB volume of a
   * 10250 MiB container need 1312047 blocks, one of them for the directory, of 1312000.
   */
  lemma PrecheckTooWeak()
    ensures var volume := 10250 * MIB / 2;
            && Precheck(5 * 1024 * MIB, volume) && volume / SECTOR_SIZE == 1312000
            && TotalCost([4 * 1024 * MIB, 1024 * MIB]) + 1 + 3 + BitmapBlocks(1312000) == 1312047
  {
    var a, b := 4 * 1024 * MIB, 1024 * MIB;
    assert [a, b][1..] == [b] && [b][1..] == [];
    assert TotalCost([b]) == Cost(BlocksFor(b));
    assert Cost(BlocksFor(a)) == 1049601 && Cost(BlocksFor(b)) == 262401;
  }

  /** No block below the end of the file is a hole. */
  ghost predicate Full(v: Vol, ino: nat)
    requires |v.inodes| == MAX_INODES && ino < MAX_INODES
  {
    && v.inodes[ino].size <= MAX_FILE_SIZE
    && forall lb :: 0 <= lb < BlocksFor(v.inodes[ino].size) && lb < MAX_FILE_BLOCKS ==> Phys(v, ino, lb) != INVALID
  }

  lemma {:induction false} FullPaths(v: Vol, own: Owners, ino: nat, n: nat, l: Loc)
    requires Mapping(v, own) && Shape(v) && ino < MAX_INODES && n <= MAX_FILE_BLOCKS && l in PathSlots(n)
    requires forall lb :: 0 <= lb < n ==> Phys(v, ino, lb) != INVALID
    ensures ValidLoc(l) && Ref(v, Slot(ino, l)) != INVALID
    decreases n
  {
    hide Core, Counted, NoHollow, Ref, Need, BitmapBlocks;
    if l in Need(n - 1) {
      MappingFacts(v, own);
      MappedMissing(v, own, ino, n - 1);
      assert l !in Missing(v, ino, n - 1);
    } else {
      FullPaths(v, own, ino, n - 1, l);
    }
  }

  lemma {:induction false} AtLeastSlots(v: Vol, own: Owners, ino: nat, locs: set<Loc>, bs: set<nat>)
    requires |v.inodes| == MAX_INODES && ino < MAX_INODES && RefsOwned(v, own)
    requires forall l :: l in locs ==> ValidLoc(l) && Ref(v, Slot(ino, l)) != INVALID && Ref(v, Slot(ino, l)) in bs
    ensures |locs| <= |bs|
    decreases locs
  {
    hide Ref;
    if locs != {} {
      var l :| l in locs;
      var b: nat := Ref(v, Slot(ino, l));
      forall m | m in locs - {l}
        ensures Ref(v, Slot(ino, m)) in bs - {b}
      {
        assert own[Ref(v, Slot(ino, m))] == Slot(ino, m) && own[b] == Slot(ino, l);
      }
      AtLeastSlots(v, own, ino, locs - {l}, bs - {b});
    }
  }

  /** A full file owns its full cost, so the bound of WriteFits cannot be improved. */
  lemma FullFileOwns(v: Vol, own: Owners, ino: nat)
    requires Sound(v, own) && |v.inodes| == MAX_INODES && ino < MAX_INODES && Full(v, ino)
    ensures |OwnedBy(own, ino)| >= Cost(BlocksFor(v.inodes[ino].size))
  {
    hide Core, Counted, NoHollow, Ref, Need, BitmapBlocks, PathSlots, Cost, DirOk, NothingPast, FreeInodeSet;
    SoundCore(v, own);
    var n := BlocksFor(v.inodes[ino].size);
    FullOwned(v, own, ino, n);
    PathSlotsCount(n);
  }

  lemma FullOwned(v: Vol, own: Owners, ino: nat, n: nat)
    requires Mapping(v, own) && Shape(v) && ino < MAX_INODES && n <= MAX_FILE_BLOCKS
    requires forall lb :: 0 <= lb < n ==> Phys(v, ino, lb) != INVALID
    ensures |PathSlots(n)| <= |OwnedBy(own, ino)|
  {
    hide Counted, NoHollow, Ref, Need, BitmapBlocks, PathSlots, FreeSet, BitsExact, OwnersRefer;
    forall l | l in PathSlots(n)
      ensures ValidLoc(l) && Ref(v, Slot(ino, l)) != INVALID && Ref(v, Slot(ino, l)) in OwnedBy(own, ino)
    {
      FullPaths(v, own, ino, n, l);
      assert own[Ref(v, Slot(ino, l))] == Slot(ino, l);
    }
    AtLeastSlots(v, own, ino, PathSlots(n), OwnedBy(own, ino));
  }

  /** No sound volume of 1312000 blocks holds a full 4 GiB file and a full 1 GiB file; the check lets them pass. */
  lemma TooWeakForReal(v: Vol, own: Owners, a: nat, b: nat)
    requires Sound(v, own) && |v.inodes| == MAX_INODES && v.total == 1312000 && 0 < a < MAX_INODES
             && 0 < b < MAX_INODES && a != b
    requires v.inodes[a].size == 4 * 1024 * MIB && v.inodes[b].size == 1024 * MIB
    ensures !(Full(v, a) && Full(v, b))
  {
    hide *;
    if Full(v, a) && Full(v, b) {
      SoundConservation(v, own);
      SoundCore(v, own);
      FullFileOwns(v, own, a);
      FullFileOwns(v, own, b);
      RootOwns(v, own);
      ThreeOwners(own, a, b);
      TooWeakNumbers(v);
      assert false;
    }
  }

  lemma RootOwns(v: Vol, own: Owners)
    requires Sound(v, own) && |v.inodes| == MAX_INODES
    ensures |OwnedBy(own, 0)| >= 1
  {
    hide Counted, NoHollow, Get, BitmapBlocks, FreeSet, BitsExact, OwnersRefer, DirOk, NothingPast, FreeInodeSet;
    assert InodeShape(v.inodes[0], 0);
    var s := Slot(0, Data(0));
    RootDirect(v, 0);
    assert Phys(v, 0, 0) != INVALID;
    assert Ref(v, s) in OwnedBy(own, 0);
  }

  lemma ThreeOwners(own: Owners, a: nat, b: nat)
    requires 0 < a && 0 < b && a != b
    ensures |OwnedBy(own, 0)| + |OwnedBy(own, a)| + |OwnedBy(own, b)| <= |own|
  {
    var x, y, z := OwnedBy(own, 0), OwnedBy(own, a), OwnedBy(own, b);
    assert x !! y !! z && x + y + z <= own.Keys;
    hide OwnedBy;
    ThreePartSize(x, y, z);
    SubsetSize(x + y + z, own.Keys);
    assert |own.Keys| == |own|;
  }

  lemma TooWeakNumbers(v: Vol)
    requires Shape(v) && v.total == 1312000
    ensures Cost(BlocksFor(4 * 1024 * MIB)) + Cost(BlocksFor(1024 * MIB)) + 1 > v.total - v.dataStart
  {
    assert BlocksFor(4 * 1024 * MIB) == 1048576 && BlocksFor(1024 * MIB) == 262144;
  }

  /** With file ino grown to `end` bytes if it is shorter, the files are at most 4 GiB and pass the check. */
  ghost predicate PassesCheck(v: Vol, ino: nat, end: nat)
  {
    && |v.inodes| == MAX_INODES && ino < MAX_INODES
    && var bytes: nat := SizesWithout(v, MAX_INODES, ino) + Max(v.inodes[ino].size, end);
       bytes <= MAX_FILE_SIZE && Precheck(bytes, v.total * SECTOR_SIZE)
  }

  /** As long as the sizes pass the check, no run is ever cut short for lack of space. */
  lemma NeverOutOfSpace(v: Vol, own: Owners, v': Vol, own': Owners, name: Name, src: seq<byte>, offset: nat)
    requires Ready(v, own) && RootCompact(v)
    requires forall k, ino :: EntryFor(v, k, name, ino) ==> PassesCheck(v, ino, offset + |src|)
    ensures !OutOfSpace(v, v', own', name, src, offset)
  {
    hide Ready, RootCompact, PassesCheck, OutOfSpace, EntryFor, Unaffordable, StoppedShort;
    if OutOfSpace(v, v', own', name, src, offset) {
      var k, ino := StuckFile(v, v', own', name, src, offset);
      PassingWrite(v, own, k, name, ino, offset, |src|);
    }
  }

  lemma PassingWrite(v: Vol, own: Owners, k: nat, name: Name, ino: nat, offset: nat, len: nat)
    requires Ready(v, own) && RootCompact(v) && EntryFor(v, k, name, ino) && PassesCheck(v, ino, offset + len)
    ensures !Unaffordable(v, ino, offset, len)
  {
    hide Sound, ZeroTail, Clean, SizesWithout, Precheck, SpaceNeeded, Consistent, DirOk, Table, EntryFor;
    if offset + len <= MAX_FILE_SIZE {
      ReadyFacts(v, own);
      LookupMeaning(v, own, name, k, ino);
      FileSize(v, own, ino);
      CapacityTheorem(v, own, ino, offset, len,
                      SizesWithout(v, MAX_INODES, ino) + Max(v.inodes[ino].size, offset + len));
    }
  }

  // ----------------------------------------------------------- the check itself

  type FileList = seq<(Name, nat)>

  function TotalBytes(files: FileList, n: nat): (total: nat)
    requires n <= |files|
  {
    if n == 0 then 0 else TotalBytes(files, n - 1) + files[n - 1].1
  }

  predicate NamesDistinct(files: FileList, n: nat)
    requires n <= |files|
  {
    forall i, j :: 0 <= i < j < n ==> files[i].0 != files[j].0
  }

  predicate SizesAllowed(files: FileList, n: nat)
    requires n <= |files|
  {
    forall i :: 0 <= i < n ==> files[i].1 <= MAX_FILE_SIZE
  }

  const BACKSLASH: byte := 92
  const DELETE: byte := 127

  /** The names that the dashboard accepts, as UTF-8: no path, no dot name, no control character, 1 to 250 bytes. */
  predicate SafeName(name: Name)
  {
    && 0 < |name| <= 250 && name != [DOT] && name != [DOT, DOT]
    && forall i :: 0 <= i < |name| ==> name[i] >= 32 && name[i] != SLASH && name[i] != BACKSLASH && name[i] != DELETE
  }

  predicate NamesSafe(files: FileList, n: nat)
    requires n <= |files|
  {
    forall i :: 0 <= i < n ==> SafeName(files[i].0)
  }

  /**
   * The dashboard's checks on the files of an upload, against the outer volume of a container of sizeMib
   * MiB: half of it, 524288 bytes for every MiB.
   */
  method CheckUpload(files: FileList, sizeMib: nat) returns (ok: bool)
    ensures ok <==> SizeAllowed(sizeMib) && Accepted(files, sizeMib * MIB / 2)
    ensures ok <==>
            && 8 <= sizeMib <= 65536 && 1 <= |files| <= 63
            && (forall i :: 0 <= i < |files| ==>
                  1 <= |files[i].0| <= 250 && files[i].0 != [46] && files[i].0 != [46, 46] && Printable(files[i].0))
            && (forall i, j :: 0 <= i < j < |files| ==> files[i].0 != files[j].0)
            && (forall i :: 0 <= i < |files| ==> files[i].1 <= 0x1_0000_0000)
            && TotalBytes(files, |files|) + 0x50_0000 <= 524288 * sizeMib
            && TotalBytes(files, |files|) + TotalBytes(files, |files|) / 1024 <= 524288 * sizeMib
  {
    hide SafeName, Printable, TotalBytes;
    AcceptedMeans(files, sizeMib);
    NoBytes(files);
    if sizeMib < 8 || sizeMib > 65536 {
      return false;
    }
    if |files| == 0 || |files| > 63 {
      return false;
    }
    var expected: map<Name, nat> := map[];
    var total := 0;
    var i := 0;
    while i < |files|
      invariant i <= |files| && total == TotalBytes(files, i)
      invariant NamesSafe(files, i) && NamesDistinct(files, i) && SizesAllowed(files, i)
      invariant forall j :: 0 <= j < i ==> files[j].0 in expected
      invariant forall name :: name in expected ==> exists j :: 0 <= j < i && files[j].0 == name
    {
      var name, size := files[i].0, files[i].1;
      if !SafeName(name) {
        return false;
      }
      if name in expected {
        return false;
      }
      if size > MAX_FILE_SIZE {
        return false;
      }
      expected := expected[name := size];
      MoreBytes(files, i);
      total := total + size;
      i := i + 1;
    }
    ok := total + Max(5 * MIB, total / 1024) <= sizeMib * MIB / 2;
  }

  lemma NoBytes(files: FileList)
    ensures TotalBytes(files, 0) == 0
  {
  }

  lemma MoreBytes(files: FileList, i: nat)
    requires i < |files|
    ensures TotalBytes(files, i + 1) == TotalBytes(files, i) + files[i].1
  {
  }

  /** No control character, no slash and no backslash. */
  predicate Printable(name: Name)
  {
    forall i :: 0 <= i < |name| ==> name[i] >= 32 && name[i] !in {47, 92, 127}
  }

  lemma AcceptedMeans(files: FileList, sizeMib: nat)
    ensures SizeAllowed(sizeMib) && Accepted(files, sizeMib * MIB / 2) <==>
            && 8 <= sizeMib <= 65536 && 1 <= |files| <= 63
            && (forall i :: 0 <= i < |files| ==>
                  1 <= |files[i].0| <= 250 && files[i].0 != [46] && files[i].0 != [46, 46] && Printable(files[i].0))
            && (forall i, j :: 0 <= i < j < |files| ==> files[i].0 != files[j].0)
            && (forall i :: 0 <= i < |files| ==> files[i].1 <= 0x1_0000_0000)
            && TotalBytes(files, |files|) + 0x50_0000 <= 524288 * sizeMib
            && TotalBytes(files, |files|) + TotalBytes(files, |files|) / 1024 <= 524288 * sizeMib
  {
    hide TotalBytes, SafeName, Printable;
    forall i | 0 <= i < |files|
      ensures SafeName(files[i].0) <==>
              1 <= |files[i].0| <= 250 && files[i].0 != [46] && files[i].0 != [46, 46] && Printable(files[i].0)
    {
      SafeMeans(files[i].0);
    }
  }

  lemma SafeMeans(name: Name)
    ensures SafeName(name) <==> 1 <= |name| <= 250 && name != [46] && name != [46, 46] && Printable(name)
  {
  }

  /** The container sizes, in MiB, that the dashboard offers. */
  predicate SizeAllowed(sizeMib: nat)
  {
    8 <= sizeMib <= 65536
  }

  /** The uploads that the dashboard lets through, for an outer volume of `volume` bytes. */
  predicate Accepted(files: FileList, volume: nat)
  {
    && 1 <= |files| <= 63 && NamesSafe(files, |files|) && NamesDistinct(files, |files|) && SizesAllowed(files, |files|)
    && Precheck(TotalBytes(files, |files|), volume)
  }
}
