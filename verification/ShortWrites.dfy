/** Writes that run out of space: how far they get, and when the volume can still be opened afterwards. */
module ShortWrites {
  import opened Base
  import opened FileMap
  import opened Ownership
  import opened Growth
  import opened Files
  import opened Bytes
  import opened FileSystem
  import opened FileOps
  import opened BlockMap
  import opened Access
  import opened Resizing
  import opened Scan

  /** A slot in a range of paths is missing exactly if it refers to nothing. */
  lemma {:induction false} InRange(v: Vol, v': Vol, ino: nat, lo: nat, hi: nat, l: Loc)
    requires |v.inodes| == MAX_INODES == |v'.inodes| && ino < MAX_INODES && hi <= MAX_FILE_BLOCKS
    requires l in MissingRange(v, ino, lo, hi)
    ensures ValidLoc(l) && Ref(v, Slot(ino, l)) == INVALID
    ensures l in MissingRange(v', ino, lo, hi) <==> Ref(v', Slot(ino, l)) == INVALID
    decreases hi
  {
    hide Ref, Need;
    if l in Missing(v, ino, hi - 1) {
      if Ref(v', Slot(ino, l)) != INVALID { NotMissing(v', ino, lo, hi, l); }
    } else {
      InRange(v, v', ino, lo, hi - 1, l);
      if Ref(v', Slot(ino, l)) != INVALID { NotMissing(v', ino, lo, hi, l); }
    }
  }

  lemma {:induction false} NotMissing(v: Vol, ino: nat, lo: nat, hi: nat, l: Loc)
    requires |v.inodes| == MAX_INODES && ino < MAX_INODES && hi <= MAX_FILE_BLOCKS && ValidLoc(l)
             && Ref(v, Slot(ino, l)) != INVALID
    ensures l !in MissingRange(v, ino, lo, hi)
    decreases hi
  {
    hide Ref, Need;
    if lo < hi { NotMissing(v, ino, lo, hi - 1, l); }
  }

  lemma {:induction false} RangeGrows(v: Vol, ino: nat, lo: nat, mid: nat, hi: nat)
    requires |v.inodes| == MAX_INODES && ino < MAX_INODES && mid <= hi <= MAX_FILE_BLOCKS
    ensures MissingRange(v, ino, lo, mid) <= MissingRange(v, ino, lo, hi)
    decreases hi
  {
    hide Missing;
    if mid < hi && lo < hi { RangeGrows(v, ino, lo, mid, hi - 1); }
  }

  /** Every slot that a half-done write filled lies on the path of a block it has passed. */
  lemma FilledEarly(v0: Vol, own0: Owners, v: Vol, own: Owners, ino: nat, src: seq<byte>, offset: nat, done: nat,
                    mid: nat, l: Loc)
    requires Mapping(v0, own0) && Shape(v0) && Shape(v) && Written(v0, v, own, ino, src, offset, done)
    requires BlocksFor(offset + done) <= mid <= MAX_FILE_BLOCKS && ValidLoc(l)
    requires Ref(v0, Slot(ino, l)) == INVALID && Ref(v, Slot(ino, l)) != INVALID
    ensures l in MissingRange(v0, ino, offset / SECTOR_SIZE, mid)
  {
    hide Core, Counted, Ref, Block, Tracked, BitmapBlocks, ByteAt, MissingRange, SameFiles, OtherBlocks;
    var lb := ServedBlock(v, ino, l);
    MappingFacts(v0, own0);
    MappedMissing(v0, own0, ino, lb);
    assert l in Missing(v0, ino, lb);
    assert Ref(v0, Slot(ino, Data(lb))) == INVALID && Ref(v, Slot(ino, Data(lb))) != INVALID;
    MissingWithin(v0, ino, offset / SECTOR_SIZE, mid, lb);
  }

  /** What a half-done write has spent is what the paths it has passed no longer lack. */
  lemma SpentEarly(v0: Vol, own0: Owners, v: Vol, own: Owners, ino: nat, src: seq<byte>, offset: nat, done: nat,
                   mid: nat)
    requires Mapping(v0, own0) && Shape(v0) && Shape(v) && Written(v0, v, own, ino, src, offset, done)
    requires BlocksFor(offset + done) <= mid <= BlocksFor(offset + |src|) <= MAX_FILE_BLOCKS
    ensures v.freeBlocks - |MissingRange(v, ino, offset / SECTOR_SIZE, mid)| ==
            v0.freeBlocks - |MissingRange(v0, ino, offset / SECTOR_SIZE, mid)|
  {
    hide Mapping, Ref, Block, Tracked, BitmapBlocks, ByteAt, MissingRange, SameFiles, OtherBlocks, Missing, BlocksFor;
    var lo, hi := offset / SECTOR_SIZE, BlocksFor(offset + |src|);
    var a0, a := MissingRange(v0, ino, lo, mid), MissingRange(v, ino, lo, mid);
    var b0, b := MissingRange(v0, ino, lo, hi), MissingRange(v, ino, lo, hi);
    RangeGrows(v0, ino, lo, mid, hi);
    RangeGrows(v, ino, lo, mid, hi);
    StillMissing(v0, v, ino, lo, mid);
    StillMissing(v0, v, ino, lo, hi);
    forall l | l in b0 && l !in b
      ensures l in a0 && l !in a
    {
      InRange(v0, v, ino, lo, hi, l);
      FilledEarly(v0, own0, v, own, ino, src, offset, done, mid, l);
    }
    forall l | l in a0 && l !in a
      ensures l in b0 && l !in b
    {
      InRange(v0, v, ino, lo, mid, l);
      NotMissing(v, ino, lo, hi, l);
    }
    assert b0 - b == a0 - a;
    assert |b0 - b| == |b0| - |b| && |a0 - a| == |a0| - |a|;
  }

  lemma StillMissing(v0: Vol, v: Vol, ino: nat, lo: nat, hi: nat)
    requires |v0.inodes| == MAX_INODES == |v.inodes| && ino < MAX_INODES && hi <= MAX_FILE_BLOCKS
    requires forall s :: ValidSlot(s) && Ref(v0, s) != INVALID ==> Ref(v, s) == Ref(v0, s)
    ensures MissingRange(v, ino, lo, hi) <= MissingRange(v0, ino, lo, hi)
  {
    hide Ref, MissingRange;
    forall l | l in MissingRange(v, ino, lo, hi)
      ensures l in MissingRange(v0, ino, lo, hi)
    {
      InRange(v, v0, ino, lo, hi, l);
    }
  }

  /** A write that runs out of space has stored the longest prefix, in whole chunks, that the free blocks pay for. */
  lemma LongestPrefix(v0: Vol, own0: Owners, v: Vol, own: Owners, ino: nat, src: seq<byte>, offset: nat, done: nat)
    requires Mapping(v0, own0) && Shape(v0) && Shape(v) && OutOfRoom(v0, v, own, ino, src, offset, done)
    ensures ino < MAX_INODES && offset + |src| <= MAX_FILE_SIZE && done < |src|
    ensures |SpaceNeeded(v0, ino, offset, done)| <= v0.freeBlocks < |SpaceNeeded(v0, ino, offset, done + 1)|
  {
    hide Mapping, Ref, Block, Tracked, BitmapBlocks, ByteAt, MissingRange, SameFiles, OtherBlocks, Missing, Extended;
    ChunkPosition(offset, done, |src|);
    var lo, lb := offset / SECTOR_SIZE, (offset + done) / SECTOR_SIZE;
    SpentEarly(v0, own0, v, own, ino, src, offset, done, lb + 1);
    MissingWithin(v, ino, lo, lb + 1, lb);
    SubsetSize(Missing(v, ino, lb), MissingRange(v, ino, lo, lb + 1));
    if done > 0 {
      forall b | lo <= b < BlocksFor(offset + done)
        ensures Missing(v, ino, b) == {}
      {
        assert b * SECTOR_SIZE < offset + done;
      }
      MissingRangeMapped(v, ino, lo, BlocksFor(offset + done));
      BlocksForMonotone(offset + done, offset + |src|);
      SpentEarly(v0, own0, v, own, ino, src, offset, done, BlocksFor(offset + done));
    }
  }

  // ----------------------------------------------- can the volume be opened again?

  /** With everything else in order, the loader's verdict is whether some file maps a block past its end. */
  lemma LoadableIff(v: Vol, own: Owners)
    requires Consistent(v, own) && |v.inodes| == MAX_INODES
    ensures Acceptable(v) <==> NothingPast(v)
  {
    hide Consistent, NothingPast;
    if NothingPast(v) {
      assert Sound(v, own);
    }
  }

  /** A write that stored nothing linked nothing. */
  lemma NothingStored(v0: Vol, own0: Owners, v: Vol, own: Owners, ino: nat, src: seq<byte>, offset: nat, l: Loc)
    requires Mapping(v0, own0) && Shape(v0) && Shape(v) && Written(v0, v, own, ino, src, offset, 0) && ValidLoc(l)
    ensures Ref(v, Slot(ino, l)) == Ref(v0, Slot(ino, l))
  {
    hide Mapping, Ref, Block, Tracked, BitmapBlocks, ByteAt, MissingRange, SameFiles, OtherBlocks, Missing, BlocksFor;
    if Ref(v0, Slot(ino, l)) == INVALID && Ref(v, Slot(ino, l)) != INVALID {
      var lo, mid := offset / SECTOR_SIZE, BlocksFor(offset);
      OffsetBlocks(offset, |src|);
      SpentEarly(v0, own0, v, own, ino, src, offset, 0, mid);
      StillMissing(v0, v, ino, lo, mid);
      SubsetOfSameSize(MissingRange(v, ino, lo, mid), MissingRange(v0, ino, lo, mid));
      FilledEarly(v0, own0, v, own, ino, src, offset, 0, mid, l);
      NotMissing(v, ino, lo, mid, l);
      assert false;
    }
  }

  lemma OffsetBlocks(offset: nat, len: nat)
    requires offset + len <= MAX_FILE_SIZE
    ensures BlocksFor(offset) <= BlocksFor(offset + len) <= MAX_FILE_BLOCKS
  {
  }

  lemma LastStored(offset: nat, done: nat)
    requires done > 0
    ensures var lb := (offset + done - 1) / SECTOR_SIZE;
            offset / SECTOR_SIZE <= lb && lb * SECTOR_SIZE < offset + done && BlocksFor(offset + done) == lb + 1
  {
  }

  /**
   * After a write that ran out of space the volume can be opened again exactly if what was stored
   * stays within the blocks that the file's old size covers.
   */
  lemma LoadableByStored(v0: Vol, own0: Owners, v: Vol, own: Owners, ino: nat, src: seq<byte>, offset: nat,
                                done: nat)
    requires Sound(v0, own0) && |v0.inodes| == MAX_INODES && IsFile(v0, ino)
    requires OutOfRoom(v0, v, own, ino, src, offset, done) && Consistent(v, own)
    ensures Acceptable(v) <==> done == 0 || BlocksFor(offset + done) <= BlocksFor(v0.inodes[ino].size)
  {
    hide *;
    SoundCore(v0, own0);
    OutOfRoomFacts(v0, v, own, ino, src, offset, done);
    LoadableIff(v, own);
    PastAfterShortWrite(v0, own0, v, own, ino, src, offset, done);
  }

  lemma OutOfRoomFacts(v0: Vol, v: Vol, own: Owners, ino: nat, src: seq<byte>, offset: nat, done: nat)
    requires OutOfRoom(v0, v, own, ino, src, offset, done)
    ensures Written(v0, v, own, ino, src, offset, done) && done < |src| && Shape(v0) && Shape(v) && ino < MAX_INODES
    ensures |v0.inodes| == MAX_INODES == |v.inodes| && offset + |src| <= MAX_FILE_SIZE
  {
    hide Written, BitmapBlocks, Missing;
    WrittenShape(v0, v, own, ino, src, offset, done);
    ShortBounds(v0, v, own, ino, src, offset, done);
  }

  lemma ShortBounds(v0: Vol, v: Vol, own: Owners, ino: nat, src: seq<byte>, offset: nat, done: nat)
    requires Written(v0, v, own, ino, src, offset, done)
    ensures offset + |src| <= MAX_FILE_SIZE && ino < MAX_INODES
  {
    hide Mapping, Tracked, OtherBlocks, Extended, ByteAt, Missing, MissingRange;
  }

  lemma PastAfterShortWrite(v0: Vol, own0: Owners, v: Vol, own: Owners, ino: nat, src: seq<byte>, offset: nat,
                            done: nat)
    requires Mapping(v0, own0) && Shape(v0) && Shape(v) && IsFile(v0, ino) && NothingPast(v0)
    requires Written(v0, v, own, ino, src, offset, done)
    ensures NothingPast(v) <==> done == 0 || BlocksFor(offset + done) <= BlocksFor(v0.inodes[ino].size)
  {
    hide Mapping, Ref, Block, Tracked, BitmapBlocks, ByteAt, MissingRange, Missing, BlocksFor;
    if done > 0 && NothingPast(v) {
      LastStored(offset, done);
      var lb := (offset + done - 1) / SECTOR_SIZE;
      StoredMapped(v, ino, lb);
      assert IsFile(v, ino) && Phys(v, ino, lb) != INVALID;
    }
    if done == 0 || BlocksFor(offset + done) <= BlocksFor(v0.inodes[ino].size) {
      forall i, lb | IsFile(v, i) && 0 <= lb < MAX_FILE_BLOCKS && Phys(v, i, lb) != INVALID
        ensures lb < BlocksFor(v.inodes[i].size)
      {
        assert IsFile(v0, i) && v.inodes[i].size == v0.inodes[i].size;
        if done == 0 && i == ino { NothingStored(v0, own0, v, own, ino, src, offset, Data(lb)); }
        assert Phys(v0, i, lb) != INVALID ==> lb < BlocksFor(v0.inodes[i].size);
        assert Ref(v, Slot(i, Data(lb))) == Phys(v, i, lb) && Ref(v0, Slot(i, Data(lb))) == Phys(v0, i, lb);
      }
    }
  }

  lemma StoredMapped(v: Vol, ino: nat, lb: nat)
    requires |v.inodes| == MAX_INODES && ino < MAX_INODES && lb < MAX_FILE_BLOCKS && Missing(v, ino, lb) == {}
    ensures Phys(v, ino, lb) != INVALID
  {
    assert Data(lb) !in Missing(v, ino, lb);
    hide Ref;
  }

  /** How many of the bytes from offset on lie in blocks that the file's size covers. */
  function Covered(size: nat, offset: nat): (n: nat)
  {
    Max(BlocksFor(size) * SECTOR_SIZE - offset, 0)
  }

  /** The free blocks run out before the write has passed the blocks that the file's size covers. */
  ghost predicate StopsEarly(v: Vol, ino: nat, offset: nat, len: nat)
    requires |v.inodes| == MAX_INODES && ino < MAX_INODES && offset + len <= MAX_FILE_SIZE
  {
    v.freeBlocks < |SpaceNeeded(v, ino, offset, Min(len, Covered(v.inodes[ino].size, offset) + 1))|
  }

  lemma NeedGrows(v: Vol, ino: nat, offset: nat, m: nat, n: nat)
    requires |v.inodes| == MAX_INODES && ino < MAX_INODES && m <= n && offset + n <= MAX_FILE_SIZE
    ensures |SpaceNeeded(v, ino, offset, m)| <= |SpaceNeeded(v, ino, offset, n)|
  {
    hide MissingRange, BlocksFor;
    if m > 0 {
      OffsetBlocks(offset, n);
      BlocksForMonotone(offset + m, offset + n);
      RangeGrows(v, ino, offset / SECTOR_SIZE, BlocksFor(offset + m), BlocksFor(offset + n));
      SubsetSize(SpaceNeeded(v, ino, offset, m), SpaceNeeded(v, ino, offset, n));
    }
  }

  lemma CoveredBlocks(size: nat, offset: nat, done: nat)
    ensures done == 0 || BlocksFor(offset + done) <= BlocksFor(size) <==> done <= Covered(size, offset)
  {
  }

  /**
   * After a write that ran out of space the volume can be opened again exactly if it stopped early, which
   * the free blocks and the file's map before the call decide.
   */
  lemma LoadableAfterShortWrite(v0: Vol, own0: Owners, v: Vol, own: Owners, ino: nat, src: seq<byte>, offset: nat,
                                done: nat)
    requires Sound(v0, own0) && |v0.inodes| == MAX_INODES && IsFile(v0, ino) && offset + |src| <= MAX_FILE_SIZE
    requires OutOfRoom(v0, v, own, ino, src, offset, done) && Consistent(v, own)
    ensures Acceptable(v) <==> StopsEarly(v0, ino, offset, |src|)
  {
    hide *;
    SoundCore(v0, own0);
    OutOfRoomFacts(v0, v, own, ino, src, offset, done);
    LongestPrefix(v0, own0, v, own, ino, src, offset, done);
    LoadableByStored(v0, own0, v, own, ino, src, offset, done);
    CoveredBlocks(v0.inodes[ino].size, offset, done);
    StopsBefore(v0, ino, offset, |src|, done);
  }

  /** The longest prefix that can be paid for is short exactly if the write stops early. */
  lemma StopsBefore(v: Vol, ino: nat, offset: nat, len: nat, done: nat)
    requires |v.inodes| == MAX_INODES && ino < MAX_INODES && offset + len <= MAX_FILE_SIZE && done < len
    requires |SpaceNeeded(v, ino, offset, done)| <= v.freeBlocks < |SpaceNeeded(v, ino, offset, done + 1)|
    ensures StopsEarly(v, ino, offset, len) <==> done <= Covered(v.inodes[ino].size, offset)
  {
    hide SpaceNeeded, Covered;
    var limit: nat := Min(len, Covered(v.inodes[ino].size, offset) + 1);
    if done < limit {
      NeedGrows(v, ino, offset, done + 1, limit);
    } else {
      NeedGrows(v, ino, offset, limit, done);
    }
  }

  /**
   * The whole condition, for any write that is not refused, on a host that does not fail: a sound volume
   * stays loadable exactly if the write's price can be paid, or it stops early.
   */
  lemma LoadableAfterWrite(v0: Vol, own0: Owners, v: Vol, own: Owners, ino: nat, src: seq<byte>, offset: nat,
                           done: nat, st: Status)
    requires Sound(v0, own0) && |v0.inodes| == MAX_INODES && IsFile(v0, ino) && offset + |src| <= MAX_FILE_SIZE
    requires WriteOutcome(v0, v, own, ino, src, offset, done, st) && Consistent(v, own)
    requires st == OK ==> WriteEffect(v0, v, own, ino, src, offset)
    ensures Acceptable(v) <==> |SpaceNeeded(v0, ino, offset, |src|)| <= v0.freeBlocks
                               || StopsEarly(v0, ino, offset, |src|)
  {
    hide Sound, OutOfRoom, SpaceNeeded, Consistent, StopsEarly, WriteEffect, NothingPast;
    SoundCore(v0, own0);
    if st == OK {
      PaidKeepsPast(v0, v, own, ino, src, offset);
      LoadableIff(v, own);
    } else {
      LoadableAfterShortWrite(v0, own0, v, own, ino, src, offset, done);
    }
  }

  lemma PaidKeepsPast(v0: Vol, v: Vol, own: Owners, ino: nat, src: seq<byte>, offset: nat)
    requires WriteEffect(v0, v, own, ino, src, offset) && |v0.inodes| == MAX_INODES && NothingPast(v0)
    ensures |v.inodes| == MAX_INODES && NothingPast(v)
  {
    hide Mapping, OtherBlocks, NothingPast, ZeroTail, Contents, Overwrite, BitmapBlocks, SpaceNeeded, RangeMapped;
  }
}
