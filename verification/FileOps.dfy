/** How a change to one file looks to the whole file system. */
module FileOps {
  import opened Base
  import opened Codec
  import opened FileMap
  import opened Ownership
  import opened Frames
  import opened Growth
  import opened Files
  import opened Bytes
  import opened FileSystem
  import opened Persist

  /** The name under which the directory lists a file. */
  ghost function FileName(v: Vol, ino: nat): (name: Name)
    requires |v.inodes| == MAX_INODES && Listed(v, ino)
    ensures Named(v, name)
  {
    var k :| Live(v, k) && InoAt(v, k) == ino; NameAt(v, k)
  }

  /** Same directory: root inode, directory blocks and the kinds of all inodes. */
  ghost predicate SameDirectory(v: Vol, v': Vol)
    requires |v.inodes| == MAX_INODES == |v'.inodes|
  {
    && v'.inodes[0] == v.inodes[0]
    && (forall l :: 0 <= l < MAX_FILE_BLOCKS ==> Block(v', 0, l) == Block(v, 0, l))
    && (forall i :: 0 <= i < MAX_INODES ==> v'.inodes[i].kind == v.inodes[i].kind)
  }

  lemma DirectoryFrame(v: Vol, v': Vol)
    requires |v.inodes| == MAX_INODES == |v'.inodes| && SameDirectory(v, v')
    ensures forall k :: 0 <= k < DIRENTS_PER_BLOCK * DIRECT_BLOCKS ==> EntryAt(v', k) == EntryAt(v, k)
    ensures forall k :: Live(v', k) <==> Live(v, k)
    ensures forall i :: IsFile(v', i) <==> IsFile(v, i)
    ensures forall i :: Listed(v', i) <==> Listed(v, i)
    ensures DirOk(v) ==> DirOk(v')
  {
    hide Block, DecodeDirent;
    EntriesFrame(v, v');
    forall i ensures Listed(v', i) <==> Listed(v, i) {
      if Listed(v, i) { var k :| Live(v, k) && InoAt(v, k) == i; assert Live(v', k); }
      if Listed(v', i) { var k :| Live(v', k) && InoAt(v', k) == i; assert Live(v, k); }
    }
  }

  lemma EntriesFrame(v: Vol, v': Vol)
    requires |v.inodes| == MAX_INODES == |v'.inodes| && SameDirectory(v, v')
    ensures forall k :: 0 <= k < DIRENTS_PER_BLOCK * DIRECT_BLOCKS ==> EntryAt(v', k) == EntryAt(v, k)
    ensures forall k :: Live(v', k) <==> Live(v, k)
  {
    hide Block, DecodeDirent;
    forall k | 0 <= k < DIRENTS_PER_BLOCK * DIRECT_BLOCKS
      ensures EntryAt(v', k) == EntryAt(v, k)
    {
      assert Block(v', 0, k / DIRENTS_PER_BLOCK) == Block(v, 0, k / DIRENTS_PER_BLOCK);
    }
  }

  /** Only the map, size and times of one file changed. */
  ghost predicate FileChanged(v: Vol, v': Vol, own': Owners, ino: nat)
    requires |v.inodes| == MAX_INODES
  {
    && IsFile(v, ino) && ino != 0
    && Mapping(v', own') && |v'.inodes| == MAX_INODES
    && v'.freeInodes == v.freeInodes
    && (forall i :: 0 <= i < MAX_INODES && i != ino ==> v'.inodes[i] == v.inodes[i])
    && v'.inodes[ino].kind == FILE && v'.inodes[ino].size <= MAX_FILE_SIZE
    && OtherBlocks(v, v', ino)
  }

  lemma FileShape(n: Inode, i: nat)
    requires i != 0 && n.kind == FILE && n.size <= MAX_FILE_SIZE
    ensures InodeShape(n, i)
  {
  }

  lemma FileChangedInodes(v: Vol, v': Vol, own': Owners, ino: nat)
    requires |v.inodes| == MAX_INODES && Shaped(v) && FileChanged(v, v', own', ino)
    ensures |v'.inodes| == MAX_INODES && Shaped(v') && FreeInodeSet(v') == FreeInodeSet(v)
  {
    hide Mapping, OtherBlocks, InodeShape;
    FileShape(v'.inodes[ino], ino);
    forall i | 0 <= i < MAX_INODES
      ensures v'.inodes[i].kind == v.inodes[i].kind
    {
      assert i != ino ==> v'.inodes[i] == v.inodes[i];
    }
  }

  lemma FileChangedDirectory(v: Vol, v': Vol, own': Owners, ino: nat)
    requires |v.inodes| == MAX_INODES && FileChanged(v, v', own', ino)
    ensures SameDirectory(v, v')
  {
    hide Mapping, Block;
  }

  lemma FileChangedConsistent(v: Vol, own: Owners, v': Vol, own': Owners, ino: nat)
    requires Consistent(v, own) && |v.inodes| == MAX_INODES && FileChanged(v, v', own', ino)
    ensures SameDirectory(v, v') && Consistent(v', own') && DirOk(v) && DirOk(v') && Listed(v, ino)
  {
    hide Mapping, Block, DirOk, Shaped, FreeInodeSet, SameDirectory, OtherBlocks, Listed;
    FileChangedDirectory(v, v', own', ino);
    DirectoryFrame(v, v');
    FileChangedInodes(v, v', own', ino);
    FilesListed(v, ino);
  }

  lemma FilesListed(v: Vol, ino: nat)
    requires |v.inodes| == MAX_INODES && DirOk(v) && IsFile(v, ino)
    ensures Listed(v, ino)
  {
    hide Listed, EntryAt;
  }

  lemma OtherContents(v: Vol, v': Vol, own': Owners, ino: nat, i: nat)
    requires |v.inodes| == MAX_INODES && FileChanged(v, v', own', ino) && i < MAX_INODES && i != ino
    ensures forall k :: 0 <= k < MAX_BYTES ==> ByteAt(v', i, k) == ByteAt(v, i, k)
    ensures Contents(v', i) == Contents(v, i)
  {
    hide Mapping, Block;
  }

  /** The table of files changes at the file's name and nowhere else. */
  lemma FileChangedTable(v: Vol, own: Owners, v': Vol, own': Owners, ino: nat)
    requires Consistent(v, own) && |v.inodes| == MAX_INODES && FileChanged(v, v', own', ino)
    ensures Consistent(v', own') && |v'.inodes| == MAX_INODES && Listed(v, ino)
    ensures DirOk(v) && DirOk(v') && Table(v') == Table(v)[FileName(v, ino) := Contents(v', ino)]
  {
    hide Consistent, Mapping, OtherBlocks, Contents, EntryAt, DirOk, Listed, SameDirectory, Table, Represents;
    FileChangedConsistent(v, own, v', own', ino);
    TableUnique(v, Table(v));
    TableUpdate(v, v', own', ino, Table(v));
    TableUnique(v', Table(v)[FileName(v, ino) := Contents(v', ino)]);
  }

  lemma TableUpdate(v: Vol, v': Vol, own': Owners, ino: nat, fs: FileTable)
    requires |v.inodes| == MAX_INODES == |v'.inodes| && FileChanged(v, v', own', ino) && SameDirectory(v, v')
    requires DirOk(v) && Listed(v, ino) && Represents(v, fs)
    ensures Represents(v', fs[FileName(v, ino) := Contents(v', ino)])
  {
    hide Mapping, OtherBlocks, Contents, EntryAt, SameDirectory;
    DirectoryFrame(v, v');
    var name := FileName(v, ino);
    var fs' := fs[name := Contents(v', ino)];
    forall k | Live(v', k) && InoAt(v', k) < MAX_INODES
      ensures NameAt(v', k) in fs' && fs'[NameAt(v', k)] == Contents(v', InoAt(v', k))
    {
      assert Live(v, k);
      if InoAt(v, k) != ino { OtherContents(v, v', own', ino, InoAt(v, k)); }
    }
    forall n | n in fs'
      ensures Named(v', n)
    {
      var k :| Live(v, k) && NameAt(v, k) == n;
      assert Live(v', k);
    }
  }

  // ------------------------------------------------------------ write, whole

  /** A file's bytes with src written at offset, the gap before it filled with zeros. */
  function Overwrite(c: seq<byte>, offset: nat, src: seq<byte>): (c': seq<byte>)
  {
    seq(Max(|c|, offset + |src|), k requires 0 <= k < Max(|c|, offset + |src|) =>
        if offset <= k < offset + |src| then src[k - offset] else if k < |c| then c[k] else 0)
  }

  /** The inode after a write: the size covers what was written. */
  function WrittenInode(n: Inode, offset: nat, len: nat, now: u64): (n': Inode)
    requires offset + len <= MAX_FILE_SIZE
  {
    n.(size := if offset + len > n.size then offset + len else n.size, mtime := now)
  }

  lemma WrittenMap(v0: Vol, v: Vol, own: Owners, ino: nat, src: seq<byte>, offset: nat, now: u64)
    requires Shape(v0) && Shape(v) && IsFile(v0, ino) && ino != 0 && v0.inodes[ino].size <= MAX_FILE_SIZE
    requires Written(v0, v, own, ino, src, offset, |src|)
    ensures var v' := WithInode(v, ino, WrittenInode(v.inodes[ino], offset, |src|, now));
            Shape(v') && FileChanged(v0, v', own, ino) && Tracked(v0, v')
            && v'.freeBlocks == v.freeBlocks
            && (forall s :: ValidSlot(s) ==> Ref(v', s) == Ref(v, s))
            && (forall i, l :: 0 <= i < MAX_INODES && 0 <= l < MAX_FILE_BLOCKS ==> Block(v', i, l) == Block(v, i, l))
            && (forall k :: 0 <= k < MAX_BYTES ==> ByteAt(v', ino, k) == ByteAt(v, ino, k))
  {
    hide Consistent, Mapping, Block, Ref, BitmapBlocks, Tracked, Extended, MissingRange, Missing;
    var v' := WithInode(v, ino, WrittenInode(v.inodes[ino], offset, |src|, now));
    WrittenMapping(v0, v, own, ino, src, offset, v');
    TrackedTransitive(v0, v, v');
  }

  lemma WrittenMapping(v0: Vol, v: Vol, own: Owners, ino: nat, src: seq<byte>, offset: nat, v': Vol)
    requires Written(v0, v, own, ino, src, offset, |src|) && Shape(v) && Shape(v')
    requires v' == WithInode(v, ino, v'.inodes[ino]) && SamePointers(v.inodes[ino], v'.inodes[ino])
    requires v'.inodes[ino].blockCount == v.inodes[ino].blockCount
    ensures Mapping(v', own) && Tracked(v, v')
    ensures forall s :: ValidSlot(s) ==> Ref(v', s) == Ref(v, s)
    ensures SameBlocks(v, v')
  {
    hide Written, Ref, BitmapBlocks;
    WrittenShape(v0, v, own, ino, src, offset, |src|);
    SameMapMapping(v, own, v');
  }

  /** Mapping depends on pointers and block counts of the inodes only. */
  lemma SameMapMapping(v: Vol, own: Owners, v': Vol)
    requires Mapping(v, own) && Shape(v) && Shape(v') && SameSpace(v, v') && v'.disk == v.disk && SameMaps(v, v')
    requires forall i :: 0 <= i < MAX_INODES ==> v'.inodes[i].blockCount == v.inodes[i].blockCount
    ensures Mapping(v', own)
    ensures forall s :: ValidSlot(s) ==> Ref(v', s) == Ref(v, s)
    ensures SameBlocks(v, v')
  {
    hide Core, Ref, BitmapBlocks, NoHollow;
    CoreFrame(v, v', own, {});
    BlockFrame(v, v', own, {});
    SameRefsNoHollow(v, v', {});
    forall i | 0 <= i < MAX_INODES
      ensures CountedAt(v', i)
    {
      assert CountedAt(v, i);
      assert Mapped(v', i) == Mapped(v, i);
    }
  }

  lemma WrittenContents(v0: Vol, v: Vol, own: Owners, v': Vol, ino: nat, src: seq<byte>, offset: nat, now: u64)
    requires Shape(v0) && Shape(v) && Shape(v') && Written(v0, v, own, ino, src, offset, |src|)
    requires v' == WithInode(v, ino, WrittenInode(v.inodes[ino], offset, |src|, now))
    requires forall k :: 0 <= k < MAX_BYTES ==> ByteAt(v', ino, k) == ByteAt(v, ino, k)
    requires forall k :: v0.inodes[ino].size <= k < MAX_BYTES ==> ByteAt(v0, ino, k) == 0
    requires v0.inodes[ino].size <= MAX_FILE_SIZE
    ensures Contents(v', ino) == Overwrite(Contents(v0, ino), offset, src)
    ensures forall k :: v'.inodes[ino].size <= k < MAX_BYTES ==> ByteAt(v', ino, k) == 0
  {
    hide Mapping, Block, Ref, BitmapBlocks, Tracked, Extended, MissingRange, Missing, ByteAt;
  }

  /** A complete write keeps every invariant and changes the file's bytes exactly as Overwrite says. */
  lemma WriteDone(v0: Vol, own0: Owners, v: Vol, own: Owners, ino: nat, src: seq<byte>, offset: nat, now: u64)
    requires Consistent(v0, own0) && Shape(v0) && Shape(v) && IsFile(v0, ino) && ino != 0
    requires Written(v0, v, own, ino, src, offset, |src|) && offset + |src| <= MAX_FILE_SIZE
    ensures var v' := WithInode(v, ino, WrittenInode(v.inodes[ino], offset, |src|, now));
            Shape(v') && FileChanged(v0, v', own, ino) && Tracked(v0, v') && v'.freeBlocks == v.freeBlocks
            && Consistent(v', own)
            && (NothingPast(v0) ==> NothingPast(v'))
            && (ZeroTail(v0) ==> ZeroTail(v') && Contents(v', ino) == Overwrite(Contents(v0, ino), offset, src))
  {
    hide Consistent, FileChanged, Mapping, Block, Ref, BitmapBlocks, Tracked, Written, Contents, Overwrite, ByteAt,
         DirOk,
         SameDirectory, NothingPast, ZeroTail;
    FileSize(v0, own0, ino);
    var v' := WithInode(v, ino, WrittenInode(v.inodes[ino], offset, |src|, now));
    WrittenMap(v0, v, own, ino, src, offset, now);
    FileChangedConsistent(v0, own0, v', own, ino);
    if NothingPast(v0) {
      WrittenNothingPast(v0, v, own, v', ino, src, offset, now);
    }
    if ZeroTail(v0) {
      WrittenZeroTail(v0, v, own, v', ino, src, offset, now);
    }
  }

  lemma FileSize(v: Vol, own: Owners, ino: nat)
    requires Consistent(v, own) && |v.inodes| == MAX_INODES && IsFile(v, ino)
    ensures v.inodes[ino].size <= MAX_FILE_SIZE && ino != 0
  {
    hide Mapping, DirOk;
    assert InodeShape(v.inodes[ino], ino);
  }

  lemma WrittenZeroTail(v0: Vol, v: Vol, own: Owners, v': Vol, ino: nat, src: seq<byte>, offset: nat, now: u64)
    requires Shape(v0) && Shape(v) && Shape(v') && Written(v0, v, own, ino, src, offset, |src|)
    requires v' == WithInode(v, ino, WrittenInode(v.inodes[ino], offset, |src|, now))
    requires forall k :: 0 <= k < MAX_BYTES ==> ByteAt(v', ino, k) == ByteAt(v, ino, k)
    requires IsFile(v0, ino) && v0.inodes[ino].size <= MAX_FILE_SIZE && ZeroTail(v0) && FileChanged(v0, v', own, ino)
    ensures ZeroTail(v') && Contents(v', ino) == Overwrite(Contents(v0, ino), offset, src)
  {
    hide Mapping, Block, Ref, BitmapBlocks, Written, Contents, Overwrite, ByteAt, OtherBlocks;
    WrittenContents(v0, v, own, v', ino, src, offset, now);
    forall i, k | IsFile(v', i) && v'.inodes[i].size <= k < MAX_BYTES
      ensures ByteAt(v', i, k) == 0
    {
      if i != ino {
        OtherContents(v0, v', own, ino, i);
        assert IsFile(v0, i) && ByteAt(v', i, k) == ByteAt(v0, i, k);
      }
    }
  }

  lemma WrittenNothingPast(v0: Vol, v: Vol, own: Owners, v': Vol, ino: nat, src: seq<byte>, offset: nat, now: u64)
    requires Shape(v0) && Shape(v) && Shape(v') && NothingPast(v0) && IsFile(v0, ino) && ino != 0
    requires Written(v0, v, own, ino, src, offset, |src|)
    requires v' == WithInode(v, ino, WrittenInode(v.inodes[ino], offset, |src|, now))
    requires forall s :: ValidSlot(s) ==> Ref(v', s) == Ref(v, s)
    ensures NothingPast(v')
  {
    hide Mapping, Consistent, Block, Ref, BitmapBlocks, Tracked, ByteAt, MissingRange, Missing;
    forall i, lb | IsFile(v', i) && 0 <= lb < MAX_FILE_BLOCKS && Phys(v', i, lb) != INVALID
      ensures lb < BlocksFor(v'.inodes[i].size)
    {
      assert Phys(v', i, lb) == Phys(v, i, lb);
      if Phys(v0, i, lb) != INVALID {
        assert lb < BlocksFor(v0.inodes[i].size);
        if i == ino { BlocksForMonotone(v0.inodes[i].size, v'.inodes[i].size); }
      } else {
        BlocksForMonotone(offset + |src|, v'.inodes[ino].size);
      }
    }
  }

  lemma BlocksForMonotone(a: nat, b: nat)
    requires a <= b
    ensures BlocksFor(a) <= BlocksFor(b)
  {
  }

  // --------------------------------------------------------- metadata writes

  /** Writing metadata to disk changes nothing about the files. */
  lemma MetaWrittenFiles(v: Vol, own: Owners, v': Vol)
    requires Consistent(v, own) && MetaWritten(v, v')
    ensures Shape(v) && Shape(v') && SameDirectory(v, v') && Consistent(v', own) && DirOk(v) && DirOk(v')
    ensures forall i, k :: 0 <= i < MAX_INODES && 0 <= k < MAX_BYTES ==> ByteAt(v', i, k) == ByteAt(v, i, k)
    ensures NothingPast(v) ==> NothingPast(v')
    ensures ZeroTail(v) ==> ZeroTail(v')
    ensures forall i :: 0 <= i < MAX_INODES ==> Contents(v', i) == Contents(v, i)
    ensures Table(v') == Table(v)
  {
    hide Mapping, MetaWritten, SameBlocks, SameDirectory, DirOk, Ref, BitmapBlocks, Shaped, Table, NothingPast,
         ZeroTail, Contents,
         ByteAt, FreeInodeSet;
    MetaWrittenMapping(v, own, v');
    MetaWrittenShape(v, v');
    SameContents(v, v');
    DirectoryFrame(v, v');
    SameInodes(v, v');
    SameTable(v, v');
  }

  lemma MetaWrittenRefs(v: Vol, own: Owners, w: Vol)
    requires Consistent(v, own) && MetaWritten(v, w)
    ensures |v.inodes| == MAX_INODES == |w.inodes|
    ensures forall s :: ValidSlot(s) ==> Ref(w, s) == Ref(v, s)
  {
    hide Mapping, MetaWritten, Shaped, DirOk, Ref, FreeInodeSet;
    MetaWrittenShape(v, w);
    MetaWrittenMapping(v, own, w);
  }

  lemma SameInodes(v: Vol, v': Vol)
    requires |v.inodes| == MAX_INODES && v'.inodes == v.inodes
    requires forall s :: ValidSlot(s) ==> Ref(v', s) == Ref(v, s)
    requires forall i, k :: 0 <= i < MAX_INODES && 0 <= k < MAX_BYTES ==> ByteAt(v', i, k) == ByteAt(v, i, k)
    ensures Shaped(v) ==> Shaped(v')
    ensures FreeInodeSet(v') == FreeInodeSet(v)
    ensures NothingPast(v) ==> NothingPast(v')
    ensures ZeroTail(v) ==> ZeroTail(v')
  {
    hide Ref, ByteAt, InodeShape, Interval, BlocksFor;
    forall i, lb | 0 <= i < MAX_INODES && 0 <= lb < MAX_FILE_BLOCKS
      ensures Phys(v', i, lb) == Phys(v, i, lb)
    {
    }
  }

  lemma SameContents(v: Vol, v': Vol)
    requires |v.inodes| == MAX_INODES && v'.inodes == v.inodes && SameBlocks(v, v')
    ensures SameDirectory(v, v')
    ensures forall i, k :: 0 <= i < MAX_INODES && 0 <= k < MAX_BYTES ==> ByteAt(v', i, k) == ByteAt(v, i, k)
    ensures forall i :: 0 <= i < MAX_INODES ==> Contents(v', i) == Contents(v, i)
  {
    hide Block;
  }

  lemma SameTable(v: Vol, v': Vol)
    requires |v.inodes| == MAX_INODES == |v'.inodes| && SameDirectory(v, v') && DirOk(v) && DirOk(v')
    requires forall i :: 0 <= i < MAX_INODES ==> Contents(v', i) == Contents(v, i)
    ensures Table(v') == Table(v)
  {
    hide Contents, EntryAt, DirOk, SameDirectory, Table;
    DirectoryFrame(v, v');
    TableUnique(v, Table(v));
    forall n | n in Table(v)
      ensures Named(v', n)
    {
      var k :| Live(v, k) && NameAt(v, k) == n;
      assert Live(v', k);
    }
    assert forall k :: Live(v', k) ==> Live(v, k) && NameAt(v', k) == NameAt(v, k) && InoAt(v', k) == InoAt(v, k);
    TableUnique(v', Table(v));
  }

  lemma FileChangedMeta(v0: Vol, v: Vol, v': Vol, own': Owners, ino: nat)
    requires |v0.inodes| == MAX_INODES && FileChanged(v0, v, own', ino) && MetaWritten(v, v')
    ensures FileChanged(v0, v', own', ino)
  {
    hide Block, MetaWritten, Mapping;
    MetaWrittenShape(v, v');
    MetaWrittenMapping(v, own', v');
  }
}
