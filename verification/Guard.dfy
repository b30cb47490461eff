/**
 * The write guard of a protected mount: whatever is done with the volume, and however it ends, the
 * container's sectors from the hidden volume's first one on stay as they are.
 */
module Guard {
  import opened Base
  import opened Codec
  import opened FileMap
  import opened Ownership
  import opened FileSystem
  import opened Persist
  import opened Volume
  import opened Flush
  import opened Access
  import opened Resizing
  import opened Directory
  import opened Create
  import opened Unlink
  import opened Header
  import opened Layout
  import opened Runs

  /** On a container whose guard starts past the mounted volume, a write of an in-range block is never refused. */
  lemma GuardNeverFires(vol: DenyVolume, sectors: array<Sector>, crypto: Crypto, t: Target, faulty: bool)
    requires Mounts(vol, sectors, crypto, t, faulty)
    requires !faulty && (t.protect ==> t.start + t.total <= t.protectStart)
    ensures vol.Reliable()
  {
    hide DenyVolume.Valid, DenyVolume.Footprint;
  }

  /** From sector `first` on the two containers are the same. */
  ghost predicate KeptFrom(a: seq<Sector>, b: seq<Sector>, first: nat)
  {
    |b| == |a| && forall i :: first <= i < |a| ==> b[i] == a[i]
  }

  /** What a volume must not write it also records. */
  lemma ForeignHolds(vol: DenyVolume, i: nat)
    requires i < vol.sectors.Length && !vol.Writable(i)
    ensures i in vol.View().foreign && vol.View().foreign[i] == vol.sectors[i]
  {
  }

  ghost predicate Recorded(vol: DenyVolume, a: seq<Sector>, foreign: map<nat, Sector>)
  {
    |a| == vol.sectors.Length && forall i: nat :: i < |a| && !vol.Writable(i) ==> i in foreign && foreign[i] == a[i]
  }

  lemma ForeignRecorded(vol: DenyVolume)
    ensures Recorded(vol, vol.sectors[..], vol.View().foreign)
  {
    hide DenyVolume.View;
    forall i: nat | i < vol.sectors.Length && !vol.Writable(i)
      ensures i in vol.View().foreign && vol.View().foreign[i] == vol.sectors[i]
    {
      ForeignHolds(vol, i);
    }
  }

  lemma GuardKept(vol: DenyVolume, a: seq<Sector>)
    requires vol.protect && Recorded(vol, a, vol.View().foreign)
    ensures KeptFrom(a, vol.sectors[..], vol.protectStart)
  {
    hide DenyVolume.View;
    ForeignRecorded(vol);
  }

  // -------------------------------------------------- anything done through the volume

  /** What code can do to an open volume: write a block, or change the caches in any way. */
  datatype Action =
    | WriteTo(b: u32, data: Sector)
    | SetNode(ino: nat, node: Inode)
    | SetMark(block: nat, used: bool, free: u32)
    | SetFreeInodes(n: u32)
    | SetAllClean

  method Perform(vol: DenyVolume, a: Action) returns (st: Status)
    requires vol.Valid()
    modifies vol.Footprint()
    ensures vol.Valid() && vol.View().foreign == old(vol.View()).foreign
  {
    hide DenyVolume.Valid, DenyVolume.View, DenyVolume.Footprint;
    st := OK;
    match a {
      case WriteTo(b, data) =>
        st := vol.WriteBlock(b, data);
      case SetNode(ino, node) =>
        if ino < MAX_INODES { vol.PutInode(ino, node); }
      case SetMark(b, used, free) =>
        if b < vol.total { vol.MarkBlock(b, used, free); }
      case SetFreeInodes(n) =>
        vol.PutFreeInodes(n);
      case SetAllClean =>
        vol.ClearDirty();
    }
  }

  /**
   * Any sequence of block writes and cache changes on a protected mount, of any data to any block, from
   * any state, on a host that may fail: nothing from the hidden volume's first sector on changes.
   */
  method PerformAll(vol: DenyVolume, actions: seq<Action>) returns (answers: seq<Status>)
    requires vol.Valid() && vol.protect
    modifies vol.Footprint()
    ensures vol.Valid() && |answers| == |actions|
    ensures KeptFrom(old(vol.sectors[..]), vol.sectors[..], vol.protectStart)
  {
    hide *;
    ghost var before := vol.sectors[..];
    ForeignRecorded(vol);
    answers := [];
    while |answers| < |actions|
      invariant vol.Valid() && |answers| <= |actions| && Recorded(vol, before, vol.View().foreign)
      decreases |actions| - |answers|
    {
      var st := Perform(vol, actions[|answers|]);
      answers := answers + [st];
    }
    GuardKept(vol, before);
  }

  // ------------------------------------------------------------ the calls themselves

  /**
   * One call on a mount whose host may fail and whose guard may refuse. `next` says that the volume is
   * consistent afterwards for sure; it is not set when a create, an unlink or a truncation was
   * interrupted after it had begun to change the volume.
   */
  method AnyCall(vol: DenyVolume, op: Op, ghost own: Owners) returns (reply: Reply, next: bool, ghost own': Owners)
    requires vol.Valid() && Consistent(vol.View(), own) && Clean(vol.View())
    modifies vol.Footprint()
    ensures vol.Valid() && Clean(vol.View()) && vol.View().foreign == old(vol.View()).foreign
    ensures next ==> Consistent(vol.View(), own')
    ensures op.Store? || op.Fetch? || op.List? ==> next
    ensures !next ==> reply.Error?
  {
    hide *;
    own', next := own, true;
    var st;
    ghost var k, done;
    match op {
      case Creat(name, now) =>
        ghost var v := vol.View();
        var ino;
        st, ino, own', k := VolCreate(vol, name, now, own);
        reply, next := Answer(st), st == OK || st == EINVAL || st == EEXIST || st == EIO;
        if st == OK { Created(v, vol.View(), own', name, ino, k); }
        if st == EINVAL || st == EEXIST { own' := own; }
      case Remove(name) =>
        ghost var v := vol.View();
        ghost var ino;
        st, own', ino, k := VolUnlink(vol, name, own);
        reply, next := Answer(st), st != EIO;
        if st == OK { Unlinked(v, own, vol.View(), own', name, ino, k); } else { own' := own; }
      case Store(name, src, offset, now) =>
        var ino, n;
        st, ino, k := VolLookup(vol, name, own);
        if st != OK {
          return Error(ENOENT), true, own;
        }
        st, n, own', done := VolWrite(vol, ino, src, offset, now, own);
        reply := Answer(st);
      case Cut(name, size, now) =>
        if size > MAX_FILE_SIZE {
          return Error(ENOSPC), true, own;
        }
        var ino;
        st, ino, k := VolLookup(vol, name, own);
        if st != OK {
          return Error(ENOENT), true, own;
        }
        st, own' := VolTruncate(vol, ino, size, now, own);
        reply, next := Answer(st), st == OK;
      case Fetch(name, len, offset) =>
        var ino, data;
        st, ino, k := VolLookup(vol, name, own);
        if st != OK {
          return Error(ENOENT), true, own;
        }
        st, data := VolRead(vol, ino, len, offset, own);
        reply := if st == OK then Bytes(data) else Error(st);
      case List =>
        var seen;
        st, seen := VolReadDir(vol, _ => false, own);
        reply := if st == OK then Entries(seen) else Error(st);
    }
  }

  function Answer(st: Status): (reply: Reply)
    ensures st != OK ==> reply == Error(st)
  {
    if st == OK then Done else Error(st)
  }

  lemma Created(v0: Vol, v: Vol, own: Owners, name: Name, ino: nat, k: nat)
    requires CreateEffect(v0, v, own, name, ino, k)
    ensures Consistent(v, own)
  {
    hide Consistent;
  }

  lemma Unlinked(v0: Vol, own0: Owners, v: Vol, own: Owners, name: Name, ino: nat, k: nat)
    requires UnlinkEffect(v0, own0, v, own, name, ino, k)
    ensures Consistent(v, own)
  {
    hide *;
    UnlinkEffectFacts(v0, own0, v, own, name, ino, k);
  }

  /**
   * A whole protected session: calls one after the other, going on after failed and refused ones, and the
   * flush of the unmount. It ends early only when a create, an unlink or a truncation was interrupted.
   * Even when the volume's declared range overlaps the guard, nothing behind the guard changes.
   */
  method Session(vol: DenyVolume, ops: seq<Op>, ghost own: Owners) returns (replies: seq<Reply>, flushed: Status)
    requires vol.Valid() && vol.protect && Consistent(vol.View(), own) && Clean(vol.View())
    modifies vol.Footprint()
    ensures vol.Valid() && |replies| <= |ops|
    ensures |replies| == |ops| ||
            (|replies| > 0 && replies[|replies| - 1].Error? && Interruptible(ops[|replies| - 1]))
    ensures KeptFrom(old(vol.sectors[..]), vol.sectors[..], vol.protectStart)
  {
    hide *;
    ghost var before := vol.sectors[..];
    ForeignRecorded(vol);
    replies := [];
    ghost var owners := own;
    var next := true;
    while |replies| < |ops| && next
      invariant vol.Valid() && |replies| <= |ops| && Recorded(vol, before, vol.View().foreign)
      invariant next ==> Consistent(vol.View(), owners) && Clean(vol.View())
      invariant !next ==>
                  |replies| > 0 && replies[|replies| - 1].Error? && Interruptible(ops[|replies| - 1])
      decreases |ops| - |replies|
    {
      var reply;
      InterruptibleIs(ops[|replies|]);
      reply, next, owners := AnyCall(vol, ops[|replies|], owners);
      replies := replies + [reply];
    }
    ghost var v := vol.View();
    flushed := VolFlush(vol);
    MetaWrittenShape(v, vol.View());
    GuardKept(vol, before);
  }

  /** The calls that change more than one place and can be interrupted between them. */
  predicate Interruptible(op: Op)
  {
    op.Creat? || op.Remove? || op.Cut?
  }

  lemma InterruptibleIs(op: Op)
    ensures Interruptible(op) <==> !(op.Store? || op.Fetch? || op.List?)
  {
  }
}
