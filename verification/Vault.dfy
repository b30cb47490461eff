/** Vaults from beginning to end: containers made, files stored, and everything found again. */
module Vault {
  import opened Base
  import opened Codec
  import opened FileMap
  import opened Ownership
  import opened FileSystem
  import opened Persist
  import opened Volume
  import opened Open
  import opened Format
  import opened Header
  import opened Layout
  import opened Runs
  import opened Capacity
  import opened Uploads
  import opened Guard
  import opened Reader

  // ----------------------------------------------------------------- mounting

  lemma FormattedTargetOpens(sectors: seq<Sector>, crypto: Crypto, t: Target, now: u64)
    requires t.start + t.total <= |sectors|
    requires IsFormatted(BlocksOf(sectors, crypto, t), crypto.MacOf(t.payload), now)
    ensures TargetOpens(sectors, crypto, t)
  {
    hide BlocksOf, IsFormatted, Opens, ForeignSectors, BitmapBlocks, Loaded, Formatted;
    FormattedOpens(BlocksOf(sectors, crypto, t), crypto.MacOf(t.payload), now,
                   ForeignSectors(sectors, t.start, t.total, t.protect, t.protectStart));
  }

  /** What a mount says about the volume object, and what the volume then holds. */
  lemma Mounting(vol: DenyVolume, sectors: array<Sector>, crypto: Crypto, t: Target, faulty: bool)
    requires Mounts(vol, sectors, crypto, t, faulty)
    ensures vol.Valid() && vol.sectors == sectors && vol.mac == crypto.MacOf(t.payload)
    ensures vol.protect == t.protect && vol.protectStart == t.protectStart
    ensures t.start + t.total <= sectors.Length
    ensures vol.View().disk == BlocksOf(sectors[..], crypto, t)
    ensures vol.View().foreign == ForeignSectors(sectors[..], t.start, t.total, t.protect, t.protectStart)
  {
    hide DenyVolume.Valid, DenyVolume.View, Plain, ForeignSectors;
    MountedDisk(vol, sectors, crypto.CipherOf(t.payload), crypto.MacOf(t.payload), t.start, t.total, t.protect,
                t.protectStart, faulty);
  }

  /** A mount stays a mount, whatever the calls have done. */
  lemma StillMounted(vol: DenyVolume, sectors: array<Sector>, crypto: Crypto, t: Target, faulty: bool)
    requires vol.Valid() && SameObject(vol, sectors, crypto, t, faulty)
    ensures Mounts(vol, sectors, crypto, t, faulty)
  {
    hide DenyVolume.Valid;
  }

  /** The unchanging fields of the volume object. */
  ghost predicate SameObject(vol: DenyVolume, sectors: array<Sector>, crypto: Crypto, t: Target, faulty: bool)
  {
    && vol.sectors == sectors && vol.cipher == crypto.CipherOf(t.payload) && vol.mac == crypto.MacOf(t.payload)
    && vol.start == t.start && vol.total == t.total && vol.protect == t.protect
    && vol.protectStart == t.protectStart && vol.faulty == faulty
  }

  lemma MountedObject(vol: DenyVolume, sectors: array<Sector>, crypto: Crypto, t: Target, faulty: bool)
    requires Mounts(vol, sectors, crypto, t, faulty)
    ensures vol.Valid() && SameObject(vol, sectors, crypto, t, faulty)
  {
    hide DenyVolume.Valid, DenyVolume.Footprint;
  }

  /** The first mount of a formatted volume is ready for an upload. */
  lemma FirstMount(v: Vol, disk: seq<Sector>, mac: seq<Sector> -> Mac, now: u64, items: seq<Item>)
    requires IsFormatted(disk, mac, now) && IsLoaded(v, disk)
    ensures Ready(v, FormatOwners(|disk|)) && Stage(v, items, 0, DataBlocks(|disk|)) && DataBlocks(|disk|) > 0
    ensures |v.inodes| == MAX_INODES && DirOk(v) && Table(v) == map[]
  {
    hide IsFormatted, BitmapBlocks, Loaded, Formatted, Ready, Opens, Durable, DataBlocks, FormatOwners, Good, DirOk,
         Table, LiveSlots, FilesCost, DirBlocks;
    FormattedOpens(disk, mac, now, v.foreign);
    FreshStage(disk, mac, now, v.foreign, items);
  }

  /** With sector 0 as it was, the password leads to the same place. */
  lemma SameTarget(before: seq<Sector>, after: seq<Sector>, password: Password)
    requires |after| == |before| && |before| > 0 && after[0] == before[0]
    requires FindTarget(before, password, None).Some? && !FindTarget(before, password, None).value.isHidden
    ensures FindTarget(after, password, None) == FindTarget(before, password, None)
  {
  }

  /** A volume that starts behind the header leaves the header alone. */
  lemma HeaderKept(before: seq<Sector>, after: seq<Sector>, total: nat)
    requires |after| == |before| && |before| > 0
    requires ForeignSectors(after, 1, total, false, 0) == ForeignSectors(before, 1, total, false, 0)
    ensures after[0] == before[0]
  {
    assert 0 in ForeignSectors(before, 1, total, false, 0) && 0 in ForeignSectors(after, 1, total, false, 0);
  }

  /** What was durable when the volume was unmounted is what the next mount finds. */
  lemma SameState(v: Vol, w: Vol, mac: seq<Sector> -> Mac)
    requires Durable(v, mac) && IsLoaded(w, v.disk) && w.foreign == v.foreign
    ensures w == v
  {
    hide Loaded, BitmapBlocks, Opens;
  }

  lemma DurableReads(v: Vol, own: Owners, mac: seq<Sector> -> Mac)
    requires Durable(v, mac) && Ready(v, own)
    ensures |v.inodes| == MAX_INODES && DirOk(v) && ReadsAs(v.disk, Table(v))
  {
    hide Opens, Loaded, Ready, Consistent, DirOk, Table, ReadsAs, BitmapBlocks;
    ReadyFacts(v, own);
    ReaderFinds(v, own);
  }

  lemma ReadyAgain(v: Vol, own: Owners, own': Owners)
    requires Ready(v, own) && Sound(v, own')
    ensures Ready(v, own')
  {
    hide Sound, ZeroTail, Clean;
  }

  // ------------------------------------------------------------- a standard vault

  /** An accepted upload asks for a container that can be made. */
  lemma AcceptedSize(items: seq<Item>, sizeMib: nat)
    requires SizeAllowed(sizeMib) && Accepted(Described(items), sizeMib * MIB / 2)
    ensures |items| > 0 && 0 < 128 * sizeMib <= INT32_LIMIT
    ensures sizeMib * MIB / 2 == 128 * sizeMib * SECTOR_SIZE
  {
    hide Described, TotalBytes, NamesSafe, NamesDistinct, SizesAllowed;
    HalfContainer(sizeMib);
  }

  /** After the upload the password still leads to the same volume, and that volume opens. */
  lemma Remounting(vol: DenyVolume, sectors: array<Sector>, crypto: Crypto, t: Target, before: seq<Sector>,
                   foreign: map<nat, Sector>, password: Password)
    requires Mounts(vol, sectors, crypto, t, false) && |before| == sectors.Length > 0
    requires t.start == 1 && !t.protect && t.protectStart == 0 && !t.isHidden
    requires FindTarget(before, password, None) == Some(t)
    requires vol.View().foreign == foreign == ForeignSectors(before, 1, t.total, false, 0)
    requires Durable(vol.View(), crypto.MacOf(t.payload))
    ensures FindTarget(sectors[..], password, None) == Some(t) && TargetOpens(sectors[..], crypto, t)
  {
    hide DenyVolume.Valid, DenyVolume.View, ForeignSectors, FindTarget, Mounts, Opens, Loaded, BitmapBlocks, BlocksOf;
    Mounting(vol, sectors, crypto, t, false);
    HeaderKept(before, sectors[..], t.total);
    SameTarget(before, sectors[..], password);
  }

  /**
   * The whole life of a vault on a host that does not fail. The files come out of the reopened vault
   * exactly as they went in, and the vault is made exactly if the dashboard accepts the files and they
   * fit the outer volume at their full cost; up to 4 GiB in all, acceptance is enough.
   */
  method StoreAndReopen(items: seq<Item>, sizeMib: nat, fill: seq<Sector>, crypto: Crypto, password: Password,
                        volumeKey: VolumeKey, hmacKey: HmacKey, now: u64)
    returns (r: Option<DenyVolume>, ghost own: Owners)
    requires password.Valid() && crypto.Valid() && |fill| == 256 * sizeMib
    requires forall i, j :: 0 <= i < |items| && 0 <= j < |items[i].pieces| ==> |items[i].pieces[j]| <= INT_MAX
    ensures r.Some? <==> SizeAllowed(sizeMib) && Accepted(Described(items), sizeMib * MIB / 2)
                         && AllFit(items, |items|, DataBlocks(128 * sizeMib))
    ensures TotalBytes(Described(items), |items|) <= MAX_FILE_SIZE ==>
              (r.Some? <==> SizeAllowed(sizeMib) && Accepted(Described(items), sizeMib * MIB / 2))
    ensures r.Some? ==> r.value.Valid() && r.value.Reliable() && Ready(r.value.View(), own)
    ensures r.Some? ==> |r.value.View().inodes| == MAX_INODES && DirOk(r.value.View())
                        && Table(r.value.View()) == TableOf(items, |items|)
    ensures r.Some? ==> ReadsAs(r.value.View().disk, TableOf(items, |items|))
  {
    hide *;
    r, own := None, map[];
    var files := Described(items);
    var accepted := CheckUpload(files, sizeMib);
    if !accepted {
      return;
    }
    AcceptedSize(items, sizeMib);
    ghost var total: nat := 128 * sizeMib;
    if TotalBytes(files, |items|) <= MAX_FILE_SIZE { AcceptedFits(items, total); }
    var container := ContainerCreate(sizeMib, fill, crypto, password, volumeKey, hmacKey, now, false);
    var sectors := container.value;
    ghost var t := FirstTarget(sizeMib, volumeKey, hmacKey);
    FirstTargetIs(sizeMib, volumeKey, hmacKey);
    FormattedTargetOpens(sectors[..], crypto, t, now);
    var vol;
    vol, own := OpenContainer(sectors, crypto, password, None, false);
    MountedObject(vol.value, sectors, crypto, t, false);
    Mounting(vol.value, sectors, crypto, t, false);
    GuardNeverFires(vol.value, sectors, crypto, t, false);
    FirstMount(vol.value.View(), BlocksOf(sectors[..], crypto, t), crypto.MacOf(t.payload), now, items);
    ghost var before, foreign := sectors[..], vol.value.View().foreign;
    var n;
    n, own := Upload(vol.value, items, now, FormatOwners(total), DataBlocks(total));
    if n < |items| {
      return None, own;
    }
    StillMounted(vol.value, sectors, crypto, t, false);
    Mounting(vol.value, sectors, crypto, t, false);
    ghost var u, ownU := vol.value.View(), own;
    Remounting(vol.value, sectors, crypto, t, before, foreign, password);
    r, own := OpenContainer(sectors, crypto, password, None, false);
    Mounting(r.value, sectors, crypto, t, false);
    GuardNeverFires(r.value, sectors, crypto, t, false);
    SameState(u, r.value.View(), crypto.MacOf(t.payload));
    DurableReads(u, ownU, crypto.MacOf(t.payload));
    ReadyAgain(u, ownU, own);
  }

  lemma FirstTargetIs(sizeMb: nat, volumeKey: VolumeKey, hmacKey: HmacKey)
    requires 128 * sizeMb <= INT32_LIMIT
    ensures var t := FirstTarget(sizeMb, volumeKey, hmacKey);
            t.start == 1 && t.total == 128 * sizeMb && !t.isHidden && !t.protect && t.protectStart == 0
  {
  }

  // ------------------------------------------------------------- a deniable vault

  /** The hidden volume that the dashboard makes for a container of sizeMib MiB always has its place. */
  lemma DashboardHiddenFits(sizeMib: nat)
    requires SizeAllowed(sizeMib)
    ensures 1 + 128 * sizeMib <= HiddenStart(256 * sizeMib, sizeMib / 2 - 1) && sizeMib / 2 - 1 >= 2
  {
  }

  /** A hidden volume that has its place is not too large to be asked for. */
  lemma NotTooLarge(length: nat, outerEnd: nat, hiddenMb: nat)
    requires length <= INT32_LIMIT
    ensures outerEnd + 256 * hiddenMb + 8 <= length ==> hiddenMb < 0x100_0000
    ensures HiddenStart(length, hiddenMb) == length - 8 - 256 * hiddenMb
  {
  }

  /** The guarded outer volume and the hidden one open, each as an empty file system. */
  lemma BothOpen(before: seq<Sector>, after: seq<Sector>, crypto: Crypto, outer: Password, hidden: Password,
                 t: Target, payload: Payload, hiddenMb: nat, now: u64)
    requires hidden.Valid() && hidden.Rejects(outer) && 0 < hiddenMb && |before| > 0
    requires FindTarget(before, outer, None) == Some(t) && before[0] == outer.seal(t.payload) && !t.isHidden
    requires t.start + t.total <= |before| && IsFormatted(BlocksOf(before, crypto, t), crypto.MacOf(t.payload), now)
    requires HiddenMade(before, after, crypto, outer, hidden, payload, hiddenMb, now)
    ensures |after| == |before| && HiddenStart(|before|, hiddenMb) >= 1
    ensures var g := t.(protect := true, protectStart := HiddenStart(|before|, hiddenMb));
            && FindTarget(after, outer, Some(hidden)) == Some(g) && g.start + g.total <= g.protectStart
            && g.start + g.total <= |after| && TargetOpens(after, crypto, g)
            && IsFormatted(BlocksOf(after, crypto, g), crypto.MacOf(g.payload), now)
    ensures var h := Target(HiddenStart(|before|, hiddenMb), 256 * hiddenMb, payload, true, false, 0);
            && FindTarget(after, hidden, None) == Some(h) && h.start + h.total <= |after|
            && TargetOpens(after, crypto, h)
            && IsFormatted(BlocksOf(after, crypto, h), crypto.MacOf(payload), now)
  {
    hide IsFormatted, FindTarget, HiddenMade, TargetOpens, Plain, Password.Valid, SameFilesAt;
    OuterUntouched(before, after, crypto, outer, hidden, payload, hiddenMb, now);
    OuterGuarded(before, after, crypto, outer, hidden, payload, hiddenMb, now);
    HiddenOpens(before, after, crypto, outer, hidden, payload, hiddenMb, now, None);
    var g := t.(protect := true, protectStart := HiddenStart(|before|, hiddenMb));
    assert BlocksOf(after, crypto, g) == BlocksOf(after, crypto, t);
    FormattedTargetOpens(after, crypto, g, now);
  }

  lemma HiddenSize(hiddenMb: nat)
    requires hiddenMb < 0x100_0000
    ensures 256 * hiddenMb * SECTOR_SIZE < 0x1_0000_0000_0000_0000
  {
  }

  lemma FootprintIs(vol: DenyVolume)
    ensures vol.Footprint() == {vol, vol.bitmap, vol.dirty, vol.inodes, vol.sectors}
  {
  }

  /** Open, empty, and free of failures. */
  ghost predicate FreshMount(vol: DenyVolume)
    reads vol, vol.Footprint()
  {
    && vol.Valid() && vol.Reliable() && (exists own :: Ready(vol.View(), own))
    && |vol.View().inodes| == MAX_INODES && DirOk(vol.View()) && Table(vol.View()) == map[]
  }

  lemma FreshMountIs(vol: DenyVolume, sectors: array<Sector>, crypto: Crypto, t: Target, now: u64)
    requires Mounts(vol, sectors, crypto, t, false) && t.start + t.total <= sectors.Length
    requires t.protect ==> t.start + t.total <= t.protectStart
    requires IsFormatted(BlocksOf(sectors[..], crypto, t), crypto.MacOf(t.payload), now)
    requires IsLoaded(vol.View(), BlocksOf(sectors[..], crypto, t))
    ensures FreshMount(vol) && vol.protect == t.protect && vol.protectStart == t.protectStart
    ensures vol.start == t.start && vol.total == t.total
  {
    hide Mounts, IsFormatted, BlocksOf, DenyVolume.View, DenyVolume.Valid, DenyVolume.Reliable, Ready, DirOk, Table,
         IsLoaded, Stage;
    Mounting(vol, sectors, crypto, t, false);
    MountedRange(vol, sectors, crypto, t, false);
    GuardNeverFires(vol, sectors, crypto, t, false);
    FirstMount(vol.View(), BlocksOf(sectors[..], crypto, t), crypto.MacOf(t.payload), now, []);
  }

  /**
   * A deniable vault on a host that does not fail: the container, the hidden volume in it, the outer
   * volume mounted with the hidden password as guard, and the hidden volume mounted by its password.
   * It is made exactly if the hidden volume has its place behind the outer one; then both volumes are
   * empty and reliable, and the guard stands at the hidden volume's first sector.
   */
  method MakeDeniable(sizeMb: nat, hiddenMb: nat, fill: seq<Sector>, crypto: Crypto, outer: Password,
                      hidden: Password, volumeKey: VolumeKey, hmacKey: HmacKey, hiddenVolumeKey: VolumeKey,
                      hiddenHmacKey: HmacKey, now: u64)
    returns (st: Status, first: Option<DenyVolume>, second: Option<DenyVolume>)
    requires outer.Valid() && hidden.Valid() && hidden.Rejects(outer) && crypto.Valid()
    requires |fill| == 256 * sizeMb <= INT32_LIMIT
    ensures st == OK <==> 0 < sizeMb && 0 < hiddenMb && 1 + 128 * sizeMb + 256 * hiddenMb + 8 <= 256 * sizeMb
    ensures st == OK ==> first.Some? && FreshMount(first.value) && second.Some? && FreshMount(second.value)
    ensures st == OK ==>
              && first.value.start == 1 && first.value.total == 128 * sizeMb
              && first.value.protect && first.value.protectStart == 256 * sizeMb - 8 - 256 * hiddenMb
              && second.value.start == 256 * sizeMb - 8 - 256 * hiddenMb && second.value.total == 256 * hiddenMb
              && !second.value.protect
  {
    hide *;
    first, second := None, None;
    var container := ContainerCreate(sizeMb, fill, crypto, outer, volumeKey, hmacKey, now, false);
    if container.None? {
      return EINVAL, None, None;
    }
    var sectors := container.value;
    ghost var t, before := FirstTarget(sizeMb, volumeKey, hmacKey), sectors[..];
    FirstTargetIs(sizeMb, volumeKey, hmacKey);
    FormattedTargetOpens(before, crypto, t, now);
    NotTooLarge(256 * sizeMb, 1 + 128 * sizeMb, hiddenMb);
    st := CreateHidden(sectors, crypto, outer, hidden, false, hiddenVolumeKey, hiddenHmacKey, hiddenMb, now, false);
    if st != OK {
      return;
    }
    HiddenSize(hiddenMb);
    ghost var payload := Payload(256 * hiddenMb * SECTOR_SIZE, hiddenVolumeKey, hiddenHmacKey);
    BothOpen(before, sectors[..], crypto, outer, hidden, t, payload, hiddenMb, now);
    ghost var g := t.(protect := true, protectStart := HiddenStart(256 * sizeMb, hiddenMb));
    ghost var h := Target(HiddenStart(256 * sizeMb, hiddenMb), 256 * hiddenMb, payload, true, false, 0);
    ghost var own;
    first, own := OpenContainer(sectors, crypto, outer, Some(hidden), false);
    FreshMountIs(first.value, sectors, crypto, g, now);
    FootprintIs(first.value);
    second, own := OpenContainer(sectors, crypto, hidden, None, false);
    FreshMountIs(second.value, sectors, crypto, h, now);
  }
}
