/** The container: its two headers, and the outer and the hidden volume. */
module Layout {
  import opened Base
  import opened Codec
  import opened FileMap
  import opened Ownership
  import opened Growth
  import opened FileSystem
  import opened FileOps
  import opened Files
  import opened Persist
  import opened Volume
  import opened Scan
  import opened Open
  import opened Format
  import opened Header

  const HEADER_SIZE: nat := 4096
  const HIDDEN_HEADER_FROM_END: nat := 32768

  /** valid_volume_range, but for the bounds of the host's file offsets. */
  predicate ValidRange(start: nat, size: nat, limit: nat)
  {
    size != 0 && size % SECTOR_SIZE == 0 && start % SECTOR_SIZE == 0 && start <= limit && size <= limit - start
  }

  /** A volume's place in the container, in bytes. */
  datatype Region = Region(start: nat, payload: Payload, isHidden: bool)

  /** Where a volume of this size that ends at the hidden header starts. */
  predicate HiddenFits(size: nat, headerOffset: nat)
  {
    headerOffset >= HEADER_SIZE && size <= headerOffset - HEADER_SIZE
        && ValidRange(headerOffset - size, size, headerOffset)
  }

  /** Which volume an open mounts, given what the password makes of the two headers. */
  function Select(outer: Option<Payload>, hidden: Option<Payload>, headerOffset: nat): (r: Option<Region>)
    ensures r.Some? ==>
              ValidRange(r.value.start, r.value.payload.volumeSize, headerOffset) && r.value.start >= HEADER_SIZE
    ensures r.Some? && r.value.isHidden ==> r.value.start + r.value.payload.volumeSize == headerOffset
    ensures r.Some? && !r.value.isHidden ==> r.value.start == HEADER_SIZE
  {
    if outer.Some? && ValidRange(HEADER_SIZE, outer.value.volumeSize, headerOffset) then
      Some(Region(HEADER_SIZE, outer.value, false))
    else if hidden.Some? && HiddenFits(hidden.value.volumeSize, headerOffset) then
      Some(Region(headerOffset - hidden.value.volumeSize, hidden.value, true))
    else None
  }

  /** The first sector of the hidden volume, which the guard protects. */
  function GuardStart(hidden: Option<Payload>, headerOffset: nat): (g: Option<nat>)
  {
    if hidden.Some? && HiddenFits(hidden.value.volumeSize, headerOffset) then
      Some((headerOffset - hidden.value.volumeSize) / SECTOR_SIZE)
    else None
  }

  lemma HeaderSector(length: nat)
    requires length * SECTOR_SIZE >= HIDDEN_HEADER_FROM_END + HEADER_SIZE
    ensures length >= 9 && length * SECTOR_SIZE - HIDDEN_HEADER_FROM_END == (length - 8) * SECTOR_SIZE
  {
  }

  lemma RegionSectors(start: nat, size: nat, length: nat)
    requires length >= 9 && ValidRange(start, size, (length - 8) * SECTOR_SIZE) && start >= HEADER_SIZE
    ensures 1 <= start / SECTOR_SIZE && start / SECTOR_SIZE + size / SECTOR_SIZE <= length - 8
    ensures start == start / SECTOR_SIZE * SECTOR_SIZE && size == size / SECTOR_SIZE * SECTOR_SIZE
  {
  }

  /** Where an open looks, before any metadata is loaded. */
  datatype Target = Target(start: nat, total: nat, payload: Payload, isHidden: bool, protect: bool, protectStart: nat)

  /**
   * The target of an open: the volume right behind the outer header, or the one that ends at the
   * hidden header. None when no header opens, or when the guard was asked for and cannot be set up.
   */
  function FindTarget(sectors: seq<Sector>, password: Password, guard: Option<Password>): (t: Option<Target>)
    ensures t.Some? ==> |sectors| >= 9 && 1 <= t.value.start && t.value.start + t.value.total <= |sectors| - 8
    ensures t.Some? ==> t.value.payload.volumeSize == t.value.total * SECTOR_SIZE
    ensures t.Some? && !t.value.isHidden ==>
              t.value.start == 1 && password.unlock(sectors[0]) == Some(t.value.payload)
    ensures t.Some? && t.value.isHidden ==>
              t.value.start + t.value.total == |sectors| - 8
              && password.unlock(sectors[|sectors| - 8]) == Some(t.value.payload)
    ensures t.Some? && guard.Some? && !t.value.isHidden ==> t.value.protect
    ensures t.Some? && t.value.protect ==> 1 <= t.value.protectStart <= |sectors| - 8
    ensures t.Some? && t.value.protect ==>
              guard.Some? && guard.value.unlock(sectors[|sectors| - 8]).Some?
              && var p := guard.value.unlock(sectors[|sectors| - 8]).value;
                 t.value.protectStart * SECTOR_SIZE + p.volumeSize == (|sectors| - 8) * SECTOR_SIZE
    ensures t.Some? && (guard.None? || t.value.isHidden) ==> !t.value.protect
  {
    if |sectors| * SECTOR_SIZE < HIDDEN_HEADER_FROM_END + HEADER_SIZE then None
    else
      HeaderSector(|sectors|);
      var headerOffset := |sectors| * SECTOR_SIZE - HIDDEN_HEADER_FROM_END;
      var r := Select(password.unlock(sectors[0]), password.unlock(sectors[|sectors| - 8]), headerOffset);
      if r.None? then None
      else
        RegionSectors(r.value.start, r.value.payload.volumeSize, |sectors|);
        var start, total := r.value.start / SECTOR_SIZE, r.value.payload.volumeSize / SECTOR_SIZE;
        if guard.None? || r.value.isHidden then Some(Target(start, total, r.value.payload, r.value.isHidden, false, 0))
        else
          var g := GuardStart(guard.value.unlock(sectors[|sectors| - 8]), headerOffset);
          if g.None? then None else Some(Target(start, total, r.value.payload, false, true, g.value))
  }

  /** A header was opened, and its volume lies between the outer header and the hidden one. */
  predicate Placed(header: Option<Payload>, length: nat)
  {
    header.Some? && header.value.volumeSize > 0 && header.value.volumeSize % 4096 == 0
    && header.value.volumeSize / 4096 + 9 <= length
  }

  /**
   * Every open, case by case. The outer header comes first, guarded if that is asked for and failing if
   * the guard's header cannot be opened; a hidden volume is mounted whatever the guard.
   */
  lemma TargetCases(sectors: seq<Sector>, password: Password, guard: Option<Password>)
    ensures |sectors| < 9 ==> FindTarget(sectors, password, guard) == None
    ensures |sectors| >= 9 ==>
              var n, t := |sectors|, FindTarget(sectors, password, guard);
              var outer, hidden := password.unlock(sectors[0]), password.unlock(sectors[n - 8]);
              && (Placed(outer, n) && guard.None? ==>
                    t == Some(Target(1, outer.value.volumeSize / 4096, outer.value, false, false, 0)))
              && (Placed(outer, n) && guard.Some? ==>
                    var inner := guard.value.unlock(sectors[n - 8]);
                    t == if !Placed(inner, n) then None
                         else Some(Target(1, outer.value.volumeSize / 4096, outer.value, false, true,
                                          n - 8 - inner.value.volumeSize / 4096)))
              && (!Placed(outer, n) && Placed(hidden, n) ==>
                    var total := hidden.value.volumeSize / 4096;
                    t == Some(Target(n - 8 - total, total, hidden.value, true, false, 0)))
              && (!Placed(outer, n) && !Placed(hidden, n) ==> t == None)
  {
    if |sectors| >= 9 {
      var n := |sectors|;
      HeaderSector(n);
      PlacedRange(password.unlock(sectors[0]), n);
      PlacedRange(password.unlock(sectors[n - 8]), n);
      if guard.Some? { PlacedRange(guard.value.unlock(sectors[n - 8]), n); }
    }
  }

  lemma PlacedRange(header: Option<Payload>, length: nat)
    requires length >= 9 && length * SECTOR_SIZE - HIDDEN_HEADER_FROM_END == (length - 8) * SECTOR_SIZE
    ensures var end := (length - 8) * SECTOR_SIZE;
            && (Placed(header, length) <==> header.Some? && ValidRange(HEADER_SIZE, header.value.volumeSize, end))
            && (Placed(header, length) <==> header.Some? && HiddenFits(header.value.volumeSize, end))
            && (Placed(header, length) ==>
                  (end - header.value.volumeSize) / SECTOR_SIZE == length - 8 - header.value.volumeSize / SECTOR_SIZE)
  {
    if header.Some? {
      var q, r := header.value.volumeSize / SECTOR_SIZE, header.value.volumeSize % SECTOR_SIZE;
      assert header.value.volumeSize == q * SECTOR_SIZE + r;
    }
  }

  /** A mount of a hidden volume never looks at the guard. */
  lemma HiddenUnguarded(sectors: seq<Sector>, password: Password, guard: Option<Password>)
    ensures var t := FindTarget(sectors, password, None);
            t.Some? && t.value.isHidden ==> FindTarget(sectors, password, guard) == t
    ensures var t := FindTarget(sectors, password, guard);
            t.Some? && t.value.isHidden ==> FindTarget(sectors, password, None) == t
  {
    hide FindTarget, Placed;
    TargetCases(sectors, password, guard);
    TargetCases(sectors, password, None);
  }

  /** vol is this target of this container, opened. */
  ghost predicate Mounts(vol: DenyVolume, sectors: array<Sector>, crypto: Crypto, t: Target, faulty: bool)
    reads vol, vol.Footprint()
  {
    MountedAt(vol, sectors, crypto.CipherOf(t.payload), crypto.MacOf(t.payload), t.start, t.total, t.protect,
              t.protectStart, faulty)
  }

  /** The plaintext of a target's blocks. */
  ghost function BlocksOf(sectors: seq<Sector>, crypto: Crypto, t: Target): (disk: seq<Sector>)
    requires t.start + t.total <= |sectors|
    ensures |disk| == t.total
  {
    Plain(sectors, crypto.CipherOf(t.payload), t.start, t.total)
  }

  /** What an open of this target loads, if the image is acceptable. */
  ghost predicate TargetOpens(sectors: seq<Sector>, crypto: Crypto, t: Target)
    requires t.start + t.total <= |sectors|
  {
    Opens(BlocksOf(sectors, crypto, t), crypto.MacOf(t.payload),
          ForeignSectors(sectors, t.start, t.total, t.protect, t.protectStart))
  }

  /** denyfs_vol_open: guard is the hidden volume's password when outer-mount protection is asked for. */
  method OpenContainer(sectors: array<Sector>, crypto: Crypto, password: Password, guard: Option<Password>,
                       faulty: bool)
    returns (r: Option<DenyVolume>, ghost own: Owners)
    requires crypto.Valid()
    requires FindTarget(sectors[..], password, guard).Some? ==>
              FindTarget(sectors[..], password, guard).value.total <= INT32_LIMIT
    ensures r.Some? ==> FindTarget(sectors[..], password, guard).Some?
    ensures r.Some? ==> fresh(r.value.Footprint() - {sectors})
    ensures r.Some? ==>
              var t := FindTarget(sectors[..], password, guard).value;
              && Mounts(r.value, sectors, crypto, t, faulty)
              && IsLoaded(r.value.View(), BlocksOf(sectors[..], crypto, t))
              && Sound(r.value.View(), own) && Clean(r.value.View())
    ensures !faulty && FindTarget(sectors[..], password, guard).Some? ==>
              (r.Some? <==> TargetOpens(sectors[..], crypto, FindTarget(sectors[..], password, guard).value))
  {
    hide Plain, Opens, ForeignSectors, MountedAt, IsLoaded, Sound, Clean, FindTarget, BitmapBlocks,
         DenyVolume.View, DenyVolume.Valid, DenyVolume.Mounted, Cipher.Inverse;
    r, own := None, map[];
    var t := FindTarget(sectors[..], password, guard);
    if t.None? {
      return;
    }
    assert crypto.CipherOf(t.value.payload).Inverse();
    var size := t.value.payload.volumeSize;
    SizeSectors(t.value.total);
    r, own := OpenVolume(sectors, crypto.CipherOf(t.value.payload), crypto.MacOf(t.value.payload), t.value.start,
                         size, t.value.protect, t.value.protectStart, faulty);
  }

  lemma SizeSectors(total: nat)
    ensures total * SECTOR_SIZE % SECTOR_SIZE == 0 && total * SECTOR_SIZE / SECTOR_SIZE == total
  {
  }

  // ----------------------------------------------------------- a new container

  /** The sizes, in MiB, that denyfs_container_create accepts. */
  predicate CreateAccepts(sizeMb: nat)
  {
    sizeMb != 0 && sizeMb * MIB / 2 / SECTOR_SIZE <= INVALID - 8
  }

  /** From 1 MiB on, up to just under 32 TiB. */
  lemma CreateSizes(sizeMb: nat)
    ensures CreateAccepts(sizeMb) <==> 1 <= sizeMb <= 0x1FF_FFFF
  {
    HalfContainer(sizeMb);
  }

  lemma HalfContainer(sizeMb: nat)
    ensures sizeMb * MIB / 2 == 128 * sizeMb * SECTOR_SIZE && sizeMb * MIB == 256 * sizeMb * SECTOR_SIZE
    ensures 128 * sizeMb * SECTOR_SIZE / SECTOR_SIZE == 128 * sizeMb && 128 * sizeMb * SECTOR_SIZE % SECTOR_SIZE == 0
  {
  }

  /** Every size accepted for a container or a hidden volume is large enough for a file system. */
  lemma EnoughBlocks(total: nat)
    requires 128 <= total
    ensures 3 + BitmapBlocks(total) < total
  {
  }

  /** What the password of a new container of sizeMb MiB leads to: its first half. */
  function FirstTarget(sizeMb: nat, volumeKey: VolumeKey, hmacKey: HmacKey): (t: Target)
    requires 128 * sizeMb <= INT32_LIMIT
  {
    Target(1, 128 * sizeMb, Payload(128 * sizeMb * SECTOR_SIZE, volumeKey, hmacKey), false, false, 0)
  }

  lemma FreshTarget(sectors: seq<Sector>, password: Password, payload: Payload, sizeMb: nat)
    requires password.Valid() && |sectors| == 256 * sizeMb > 0 && payload.volumeSize == 128 * sizeMb * SECTOR_SIZE
    requires sectors[0] == password.seal(payload)
    ensures FindTarget(sectors, password, None) == Some(Target(1, 128 * sizeMb, payload, false, false, 0))
  {
    HalfContainer(sizeMb);
  }

  /**
   * denyfs_container_create: a container of random sectors, the outer header in sector 0 and an empty
   * file system in the first half. What comes out opens with the password that made it.
   */
  method ContainerCreate(sizeMb: nat, fill: seq<Sector>, crypto: Crypto, password: Password, volumeKey: VolumeKey,
                         hmacKey: HmacKey, now: u64, faulty: bool)
    returns (r: Option<array<Sector>>)
    requires password.Valid() && crypto.Valid() && 128 * sizeMb <= INT32_LIMIT && |fill| == 256 * sizeMb
    ensures !faulty ==> (r.Some? <==> sizeMb > 0)
    ensures r.Some? ==> fresh(r.value) && r.value.Length == 256 * sizeMb > 0
    ensures r.Some? ==>
              var t := FirstTarget(sizeMb, volumeKey, hmacKey);
              && r.value[0] == password.seal(t.payload) && FindTarget(r.value[..], password, None) == Some(t)
              && IsFormatted(BlocksOf(r.value[..], crypto, t), crypto.MacOf(t.payload), now)
  {
    hide Plain, IsFormatted, OnlyInside, FindTarget, FormatAccepts, BitmapBlocks, Cipher.Inverse, Password.Valid;
    r := None;
    CreateSizes(sizeMb);
    if !CreateAccepts(sizeMb) {
      return;
    }
    HalfContainer(sizeMb);
    var volumeSize := sizeMb * MIB / 2;
    var payload := Payload(volumeSize, volumeKey, hmacKey);
    var sectors := new Sector[|fill|](i requires 0 <= i < |fill| => fill[i]);
    sectors[0] := password.seal(payload);
    if faulty {
      var fail: bool := *;
      if fail {
        return;
      }
    }
    ghost var before := sectors[..];
    CreatedFits(sizeMb);
    assert crypto.CipherOf(payload).Inverse();
    var ok := FormatVolume(sectors, crypto.CipherOf(payload), crypto.MacOf(payload), 1, volumeSize, now, faulty);
    if ok {
      OutsideKept(before, sectors[..], 1, 128 * sizeMb, 0);
      FreshTarget(sectors[..], password, payload, sizeMb);
      r := Some(sectors);
    }
  }

  lemma CreatedFits(sizeMb: nat)
    requires CreateAccepts(sizeMb)
    ensures FormatAccepts(128 * sizeMb * SECTOR_SIZE) && 1 + 128 * sizeMb <= 256 * sizeMb
  {
    HalfContainer(sizeMb);
    EnoughBlocks(128 * sizeMb);
  }

  lemma OutsideKept(before: seq<Sector>, after: seq<Sector>, start: nat, total: nat, i: nat)
    requires OnlyInside(before, after, start, total) && i < |before| && !(start <= i < start + total)
    ensures |after| == |before| && after[i] == before[i]
  {
  }

  // ---------------------------------------------------------- a hidden volume

  /** The hidden volume of hiddenMb MiB: the sectors right before the hidden header. */
  function HiddenStart(length: nat, hiddenMb: nat): (s: int)
  {
    length - 8 - 256 * hiddenMb
  }

  /** The hidden volume would reach into the outer one, which ends before sector outerEnd. */
  predicate HiddenTooLarge(length: nat, outerEnd: nat, hiddenMb: nat)
  {
    || hiddenMb * MIB > (length - 8) * SECTOR_SIZE
    || outerEnd * SECTOR_SIZE > (length - 8) * SECTOR_SIZE - hiddenMb * MIB
  }

  lemma HiddenRoom(length: nat, outerEnd: nat, hiddenMb: nat)
    requires hiddenMb > 0 && hiddenMb * MIB / SECTOR_SIZE <= INVALID - 8
    ensures !HiddenTooLarge(length, outerEnd, hiddenMb) <==> outerEnd <= HiddenStart(length, hiddenMb)
    ensures hiddenMb * MIB == 256 * hiddenMb * SECTOR_SIZE && hiddenMb * MIB / SECTOR_SIZE == 256 * hiddenMb
    ensures FormatAccepts(hiddenMb * MIB)
  {
    HalfContainer(hiddenMb);
    EnoughBlocks(256 * hiddenMb);
  }

  lemma HiddenSizes(hiddenMb: nat)
    ensures hiddenMb * MIB / SECTOR_SIZE > INVALID - 8 <==> hiddenMb >= 0x100_0000
  {
    HalfContainer(hiddenMb);
  }

  /** The outer part of the container is untouched and the hidden part holds a new empty volume behind its header. */
  ghost predicate HiddenMade(before: seq<Sector>, after: seq<Sector>, crypto: Crypto, outer: Password,
                             hidden: Password, payload: Payload, hiddenMb: nat, now: u64)
  {
    && |after| == |before| && FindTarget(before, outer, None).Some?
    && var t := FindTarget(before, outer, None).value;
       && t.start + t.total <= HiddenStart(|before|, hiddenMb) && !t.isHidden
       && (forall i :: 0 <= i < t.start + t.total ==> after[i] == before[i])
       && after[|before| - 8] == hidden.seal(payload) && payload.volumeSize == 256 * hiddenMb * SECTOR_SIZE
       && IsFormatted(Plain(after, crypto.CipherOf(payload), HiddenStart(|before|, hiddenMb), 256 * hiddenMb),
                      crypto.MacOf(payload), now)
  }

  /** denyfs_container_create_hidden. */
  method CreateHidden(sectors: array<Sector>, crypto: Crypto, outer: Password, hidden: Password, samePassword: bool,
                      volumeKey: VolumeKey, hmacKey: HmacKey, hiddenMb: nat, now: u64, faulty: bool)
    returns (st: Status)
    requires crypto.Valid() && sectors.Length <= INT32_LIMIT
    modifies sectors
    ensures samePassword || hiddenMb == 0 || hiddenMb >= 0x100_0000 ==> st == EINVAL
    ensures st == EINVAL || st == EACCES || st == ENOSPC || (!faulty && st != OK) ==> sectors[..] == old(sectors[..])
    ensures !faulty && !samePassword && 0 < hiddenMb < 0x100_0000 ==>
              var t := FindTarget(old(sectors[..]), outer, None);
              st == if t.None? || !TargetOpens(old(sectors[..]), crypto, t.value) then EACCES
                    else if t.value.start + t.value.total + 256 * hiddenMb + 8 > sectors.Length then ENOSPC
                    else OK
    ensures st == OK ==>
              0 < hiddenMb < 0x100_0000
              && HiddenMade(old(sectors[..]), sectors[..], crypto, outer, hidden,
                            Payload(256 * hiddenMb * SECTOR_SIZE, volumeKey, hmacKey), hiddenMb, now)
    ensures FindTarget(old(sectors[..]), outer, None).Some? ==>
              var t := FindTarget(old(sectors[..]), outer, None).value;
              forall i :: 0 <= i < t.start + t.total ==> sectors[i] == old(sectors[..])[i]
  {
    hide Plain, IsFormatted, OnlyInside, FindTarget, FormatAccepts, BitmapBlocks, Cipher.Inverse, Password.Valid,
         HiddenMade, TargetOpens, Mounts, IsLoaded, Sound, Clean, BlocksOf;
    ghost var before := sectors[..];
    HiddenSizes(hiddenMb);
    if hiddenMb == 0 || hiddenMb * MIB / SECTOR_SIZE > INVALID - 8 || samePassword {
      return EINVAL;
    }
    ghost var t := FindTarget(before, outer, None);
    var vol, own := OpenContainer(sectors, crypto, outer, None, faulty);
    if vol.None? {
      return EACCES;
    }
    MountedRange(vol.value, sectors, crypto, t.value, faulty);
    if HiddenTooLarge(sectors.Length, vol.value.start + vol.value.total, hiddenMb) {
      return ENOSPC;
    }
    HiddenRoom(sectors.Length, vol.value.start + vol.value.total, hiddenMb);
    var payload := Payload(hiddenMb * MIB, volumeKey, hmacKey);
    if faulty {
      var fail: bool := *;
      if fail {
        return EIO;
      }
    }
    sectors[sectors.Length - 8] := hidden.seal(payload);
    ghost var between := sectors[..];
    var start := HiddenStart(sectors.Length, hiddenMb);
    assert crypto.CipherOf(payload).Inverse();
    var ok := FormatVolume(sectors, crypto.CipherOf(payload), crypto.MacOf(payload), start, hiddenMb * MIB, now,
                           faulty);
    HiddenKept(before, between, sectors[..], start, 256 * hiddenMb, hidden.seal(payload));
    if !ok {
      return EIO;
    }
    HiddenMadeIntro(before, sectors[..], crypto, outer, hidden, payload, hiddenMb, now);
    st := OK;
  }

  lemma MountedRange(vol: DenyVolume, sectors: array<Sector>, crypto: Crypto, t: Target, faulty: bool)
    requires Mounts(vol, sectors, crypto, t, faulty)
    ensures vol.start == t.start && vol.total == t.total
  {
    hide DenyVolume.Valid, DenyVolume.Footprint;
  }

  lemma HiddenKept(before: seq<Sector>, between: seq<Sector>, after: seq<Sector>, start: nat, total: nat,
                   header: Sector)
    requires |before| >= 9 && start + total == |before| - 8 && between == before[|before| - 8 := header]
    requires OnlyInside(between, after, start, total)
    ensures |after| == |before| && after[|before| - 8] == header && forall i :: 0 <= i < start ==> after[i] == before[i]
  {
  }

  lemma HiddenMadeIntro(before: seq<Sector>, after: seq<Sector>, crypto: Crypto, outer: Password, hidden: Password,
                        payload: Payload, hiddenMb: nat, now: u64)
    requires |after| == |before| >= 9 && FindTarget(before, outer, None).Some? && HiddenStart(|before|, hiddenMb) >= 0
    requires var t := FindTarget(before, outer, None).value; t.start + t.total <= HiddenStart(|before|, hiddenMb)
    requires hiddenMb > 0
    requires forall i :: 0 <= i < HiddenStart(|before|, hiddenMb) ==> after[i] == before[i]
    requires after[|before| - 8] == hidden.seal(payload) && payload.volumeSize == 256 * hiddenMb * SECTOR_SIZE
    requires IsFormatted(Plain(after, crypto.CipherOf(payload), HiddenStart(|before|, hiddenMb), 256 * hiddenMb),
                         crypto.MacOf(payload), now)
    ensures HiddenMade(before, after, crypto, outer, hidden, payload, hiddenMb, now)
  {
    hide FindTarget, IsFormatted, Plain;
  }

  /** When a hidden volume has been made, the four parts of the container do not overlap and lie inside it. */
  lemma PartsDisjoint(before: seq<Sector>, after: seq<Sector>, crypto: Crypto, outer: Password, hidden: Password,
                      payload: Payload, hiddenMb: nat, now: u64)
    requires HiddenMade(before, after, crypto, outer, hidden, payload, hiddenMb, now) && hiddenMb > 0
    ensures FindTarget(before, outer, None).Some? && |after| == |before| >= 9 && HiddenStart(|before|, hiddenMb) >= 1
    ensures var t, n := FindTarget(before, outer, None).value, |before|;
            var first, last := Interval(t.start, t.start + t.total), Interval(n - 8 - 256 * hiddenMb, n - 8);
            && t.start == 1 && !t.isHidden
            && {0 as nat} !! first !! last !! {(n - 8) as nat}
            && |first| == t.total && |last| == 256 * hiddenMb
            && {0 as nat} + first + last + {(n - 8) as nat} <= Interval(0, n)
  {
    hide FindTarget, Interval, IsFormatted, Plain;
  }

  /**
   * Making a hidden volume does not change what the outer password mounts: not its place, not a block
   * of it, and so none of its files.
   */
  lemma OuterUntouched(before: seq<Sector>, after: seq<Sector>, crypto: Crypto, outer: Password, hidden: Password,
                       payload: Payload, hiddenMb: nat, now: u64)
    requires HiddenMade(before, after, crypto, outer, hidden, payload, hiddenMb, now)
    ensures FindTarget(before, outer, None).Some? && FindTarget(after, outer, None) == FindTarget(before, outer, None)
    ensures |after| == |before|
    ensures var t := FindTarget(before, outer, None).value;
            BlocksOf(after, crypto, t) == BlocksOf(before, crypto, t)
    ensures var t := FindTarget(before, outer, None).value;
            TargetOpens(before, crypto, t) ==> TargetOpens(after, crypto, t) && SameFilesAt(before, after, crypto, t)
  {
    hide IsFormatted, Cipher.Inverse, Opens, ForeignSectors;
    assert after[0] == before[0];
    var t := FindTarget(before, outer, None).value;
    assert BlocksOf(after, crypto, t) == BlocksOf(before, crypto, t);
    if TargetOpens(before, crypto, t) {
      OpensAnywhere(BlocksOf(before, crypto, t), crypto.MacOf(t.payload),
                    ForeignSectors(before, t.start, t.total, t.protect, t.protectStart),
                    ForeignSectors(after, t.start, t.total, t.protect, t.protectStart));
    }
  }

  /** The files of the volume that an open of t loads are the same in both containers. */
  ghost predicate SameFilesAt(before: seq<Sector>, after: seq<Sector>, crypto: Crypto, t: Target)
    requires t.start + t.total <= |before| == |after|
  {
    && 3 + BitmapBlocks(t.total) < t.total
    && var v := Loaded(BlocksOf(before, crypto, t),
                       ForeignSectors(before, t.start, t.total, t.protect, t.protectStart));
       var w := Loaded(BlocksOf(after, crypto, t),
                       ForeignSectors(after, t.start, t.total, t.protect, t.protectStart));
       && |v.inodes| == MAX_INODES == |w.inodes| && DirOk(v) && DirOk(w) && Table(w) == Table(v)
  }

  /** What a volume's metadata says does not depend on the sectors around the volume. */
  lemma OpensAnywhere(disk: seq<Sector>, mac: seq<Sector> -> Mac, f: map<nat, Sector>, g: map<nat, Sector>)
    requires Opens(disk, mac, f)
    ensures 3 + BitmapBlocks(|disk|) < |disk| && Opens(disk, mac, g)
    ensures var v, w := Loaded(disk, f), Loaded(disk, g);
            |v.inodes| == MAX_INODES == |w.inodes| && DirOk(v) && DirOk(w) && Table(w) == Table(v)
  {
    hide Loaded, BitmapBlocks, Sound, DirOk, Table, DecodeSuperblock, ValidateSuperblock;
    var v, w := Loaded(disk, f), Loaded(disk, g);
    LoadedElsewhere(disk, f, g);
    var own :| Sound(v, own);
    SoundElsewhere(v, own, g);
  }

  lemma LoadedElsewhere(disk: seq<Sector>, f: map<nat, Sector>, g: map<nat, Sector>)
    requires 3 + BitmapBlocks(|disk|) < |disk|
    ensures Loaded(disk, g) == Loaded(disk, f).(foreign := g)
  {
    hide BitmapBlocks, DecodeBitmap, DecodeInodes, DecodeSuperblock;
  }

  lemma SoundElsewhere(v: Vol, own: Owners, g: map<nat, Sector>)
    requires Sound(v, own)
    ensures Sound(v.(foreign := g), own)
    ensures var w := v.(foreign := g);
            |v.inodes| == MAX_INODES == |w.inodes| && DirOk(v) && DirOk(w) && Table(w) == Table(v)
  {
    hide Core, Counted, NoHollow, DirOk, Table, Get, Block, ByteAt, InodeShape, FreeInodeSet, BitmapBlocks;
    var w := v.(foreign := g);
    SoundCore(v, own);
    CoreElsewhere(v, own, g);
    SameContents(v, w);
    SameInodes(v, w);
    DirectoryFrame(v, w);
    SameTable(v, w);
  }

  lemma CoreElsewhere(v: Vol, own: Owners, g: map<nat, Sector>)
    requires Mapping(v, own) && Shape(v)
    ensures var w := v.(foreign := g);
            Shape(w) && Mapping(w, own) && SameBlocks(v, w) && forall s :: ValidSlot(s) ==> Ref(w, s) == Ref(v, s)
  {
    SameMapMapping(v, own, v.(foreign := g));
  }

  /** The outer volume mounted with the hidden password as guard: all of it lies before the guarded sectors. */
  lemma OuterGuarded(before: seq<Sector>, after: seq<Sector>, crypto: Crypto, outer: Password, hidden: Password,
                     payload: Payload, hiddenMb: nat, now: u64)
    requires hidden.Valid() && HiddenMade(before, after, crypto, outer, hidden, payload, hiddenMb, now)
    requires hiddenMb > 0
    ensures FindTarget(before, outer, None).Some?
    ensures var t := FindTarget(before, outer, None).value;
            && FindTarget(after, outer, Some(hidden)) ==
               Some(t.(protect := true, protectStart := HiddenStart(|before|, hiddenMb)))
            && t.start + t.total <= HiddenStart(|before|, hiddenMb)
  {
    hide IsFormatted, Cipher.Inverse, Plain;
    assert after[0] == before[0];
    HalfContainer(hiddenMb);
    HeaderSector(|after|);
    GuardPosition(|before|, hiddenMb, payload);
  }

  lemma GuardPosition(length: nat, hiddenMb: nat, payload: Payload)
    requires length >= 9 && 0 < hiddenMb && 1 <= HiddenStart(length, hiddenMb)
             && payload.volumeSize == 256 * hiddenMb * SECTOR_SIZE
    ensures HiddenFits(payload.volumeSize, (length - 8) * SECTOR_SIZE)
    ensures ((length - 8) * SECTOR_SIZE - payload.volumeSize) / SECTOR_SIZE == HiddenStart(length, hiddenMb)
  {
  }

  lemma HiddenTarget(sectors: seq<Sector>, hidden: Password, payload: Payload, hiddenMb: nat, guard: Option<Password>)
    requires hidden.Valid() && |sectors| >= 9 && 0 < hiddenMb && HiddenStart(|sectors|, hiddenMb) >= 1
    requires sectors[|sectors| - 8] == hidden.seal(payload) && payload.volumeSize == 256 * hiddenMb * SECTOR_SIZE
    requires hidden.unlock(sectors[0]).None?
    ensures FindTarget(sectors, hidden, guard) ==
            Some(Target(HiddenStart(|sectors|, hiddenMb), 256 * hiddenMb, payload, true, false, 0))
  {
    HalfContainer(hiddenMb);
    HeaderSector(|sectors|);
    GuardPosition(|sectors|, hiddenMb, payload);
  }

  /**
   * The hidden password, which does not open the outer header, mounts the new volume: the empty file
   * system. It does so whatever password is given for the guard.
   */
  lemma HiddenOpens(before: seq<Sector>, after: seq<Sector>, crypto: Crypto, outer: Password, hidden: Password,
                    payload: Payload, hiddenMb: nat, now: u64, guard: Option<Password>)
    requires hidden.Valid() && HiddenMade(before, after, crypto, outer, hidden, payload, hiddenMb, now)
    requires hiddenMb > 0 && hidden.unlock(before[0]).None?
    ensures HiddenStart(|before|, hiddenMb) >= 1 && |after| == |before|
    ensures var t := Target(HiddenStart(|before|, hiddenMb), 256 * hiddenMb, payload, true, false, 0);
            && FindTarget(after, hidden, guard) == Some(t) && TargetOpens(after, crypto, t)
            && IsFormatted(BlocksOf(after, crypto, t), crypto.MacOf(payload), now)
  {
    hide IsFormatted, Cipher.Inverse, Plain, Opens, FindTarget, Password.Valid, ForeignSectors;
    assert after[0] == before[0];
    HiddenTarget(after, hidden, payload, hiddenMb, guard);
    var t := Target(HiddenStart(|before|, hiddenMb), 256 * hiddenMb, payload, true, false, 0);
    FormattedOpens(BlocksOf(after, crypto, t), crypto.MacOf(payload), now,
                   ForeignSectors(after, t.start, t.total, false, 0));
  }

  /** The documented container for a 4101 MiB hidden volume: 8203 MiB leave room for it, 8202 MiB do not. */
  lemma DocumentedContainer()
    ensures 1 + 128 * 8203 <= HiddenStart(256 * 8203, 4101)
    ensures 1 + 128 * 8202 > HiddenStart(256 * 8202, 4101)
  {
  }
}
