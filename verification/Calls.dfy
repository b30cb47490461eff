/** What the calls answer and what they do to a file's bytes, written out. */
module Calls {
  import opened Base
  import opened Codec
  import opened FileMap
  import opened FileSystem
  import opened FileOps
  import opened Create
  import opened Access
  import opened Resizing

  // -------------------------------------------------------------- refusals

  /** A read or a write is refused by inode number, length, kind and range, in this order. */
  lemma ReadAndWriteRefusals(v: Vol, ino: nat, len: nat, offset: nat)
    requires |v.inodes| == MAX_INODES
    ensures ino >= 64 || len >= 0x8000_0000 ==>
              WriteRefused(v, ino, len, offset) == EINVAL == ReadRefused(v, ino, len)
    ensures ino < 64 && len < 0x8000_0000 ==>
              && (v.inodes[ino].kind != 1 ==> WriteRefused(v, ino, len, offset) == EISDIR == ReadRefused(v, ino, len))
              && (v.inodes[ino].kind == 1 ==>
                    ReadRefused(v, ino, len) == OK
                    && WriteRefused(v, ino, len, offset) == if offset + len > 0x1_0000_0000 then ENOSPC else OK)
  {
  }

  lemma TruncateRefusals(v: Vol, ino: nat, newSize: nat)
    requires |v.inodes| == MAX_INODES
    ensures ino >= 64 ==> TruncateRefused(v, ino, newSize) == EINVAL
    ensures ino < 64 && v.inodes[ino].kind != 1 ==> TruncateRefused(v, ino, newSize) == EISDIR
    ensures ino < 64 && v.inodes[ino].kind == 1 ==>
              TruncateRefused(v, ino, newSize) == if newSize > 0x1_0000_0000 then ENOSPC else OK
  {
  }

  /** A create is refused for its name, for a file of that name, for want of an inode, and for want of room. */
  lemma CreateRefusals(v: Vol, name: Name)
    requires |v.inodes| == MAX_INODES && 0 !in name
    ensures |name| == 0 || |name| > 250 || 47 in name || name == [46] || name == [46, 46] ==>
              CreateRefused(v, name) == EINVAL
    ensures 0 < |name| <= 250 && 47 !in name && name != [46] && name != [46, 46] ==>
              CreateRefused(v, name) ==
              if exists k :: Live(v, k) && NameAt(v, k) == name then EEXIST
              else if v.freeInodes == 0 then ENOSPC
              else if DirFull(v) && (v.inodes[0].blockCount >= 20 || v.freeBlocks == 0) then ENOSPC
              else OK
  {
    hide Live, DirFull;
  }

  // ----------------------------------------------------------------- bytes

  /** A write splices its bytes in, or hangs them on after as many zeros as the gap has bytes. */
  lemma WriteSplices(c: seq<byte>, offset: nat, src: seq<byte>)
    ensures offset + |src| <= |c| ==> Overwrite(c, offset, src) == c[..offset] + src + c[offset + |src|..]
    ensures offset <= |c| < offset + |src| ==> Overwrite(c, offset, src) == c[..offset] + src
    ensures offset > |c| ==> Overwrite(c, offset, src) == c + Zeros(offset - |c|) + src
  {
  }

  lemma TruncateCuts(c: seq<byte>, n: nat)
    ensures Resize(c, n) == if n <= |c| then c[..n] else c + Zeros(n - |c|)
  {
  }

  lemma ReadClamps(c: seq<byte>, offset: nat, len: nat)
    ensures Slice(c, offset, len) ==
            if offset >= |c| then [] else if offset + len > |c| then c[offset..] else c[offset..offset + len]
  {
  }

  /** What was written is read back, and a read that ends before it or starts after it sees no difference. */
  lemma ReadBack(c: seq<byte>, offset: nat, src: seq<byte>, at: nat, len: nat)
    ensures Slice(Overwrite(c, offset, src), offset, |src|) == src
    ensures at + len <= |c| && (at + len <= offset || offset + |src| <= at) ==>
              Slice(Overwrite(c, offset, src), at, len) == Slice(c, at, len)
  {
    var d := Overwrite(c, offset, src);
    if src != [] {
      assert d[offset..offset + |src|] == src;
    }
    if at + len <= |c| && (at + len <= offset || offset + |src| <= at) {
      assert d[at..at + len] == c[at..at + len];
      ReadClamps(c, at, len);
      ReadClamps(d, at, len);
    }
  }
}
