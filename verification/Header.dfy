/** Volume headers: what they hold, the keys, and the passwords that seal and open them. */
module Header {
  import opened Base
  import opened Codec
  import opened Volume

  const KEY_SIZE_XTS: nat := 64
  const KEY_SIZE_HMAC: nat := 32

  type VolumeKey = k: seq<byte> | |k| == KEY_SIZE_XTS witness seq(KEY_SIZE_XTS, _ => 0)
  type HmacKey = k: seq<byte> | |k| == KEY_SIZE_HMAC witness seq(KEY_SIZE_HMAC, _ => 0)

  /** What a header holds once decrypted: the declared volume size and the keys. */
  datatype Payload = Payload(volumeSize: u64, volumeKey: VolumeKey, hmacKey: HmacKey)

  /** Sector encryption and the bitmap's HMAC, key by key. */
  datatype Crypto = Crypto(ciphers: VolumeKey -> Cipher, macs: HmacKey -> seq<Sector> -> Mac)
  {
    /** Under every key, decryption undoes encryption. */
    ghost predicate Valid()
    {
      forall k :: ciphers(k).Inverse()
    }

    function CipherOf(p: Payload): (c: Cipher)
    {
      ciphers(p.volumeKey)
    }

    function MacOf(p: Payload): (mac: seq<Sector> -> Mac)
    {
      macs(p.hmacKey)
    }
  }

  /** A password, as the header encryption sees it: what it seals it can open again. */
  datatype Password = Password(seal: Payload -> Sector, unlock: Sector -> Option<Payload>)
  {
    ghost predicate Valid()
    {
      forall p :: unlock(seal(p)) == Some(p)
    }

    /** This password does not open what the other one seals. */
    ghost predicate Rejects(other: Password)
    {
      forall p :: unlock(other.seal(p)).None?
    }
  }

  // ------------------------------------------ there are such ciphers and passwords

  /** A header that carries its payload in the open and names its password by a tag. */
  function TaggedSeal(tag: byte, p: Payload): (s: Sector)
  {
    seq(SECTOR_SIZE, k requires 0 <= k < SECTOR_SIZE =>
        if k < 8 then LongByte(p.volumeSize, k)
        else if k < 72 then p.volumeKey[k - 8]
        else if k < 104 then p.hmacKey[k - 72]
        else tag)
  }

  function TaggedUnlock(tag: byte, s: Sector): (p: Option<Payload>)
  {
    if s[104] == tag then Some(Payload(LongAt(s, 0), s[8..72], s[72..104])) else None
  }

  function TaggedPassword(tag: byte): (p: Password)
  {
    Password((p: Payload) => TaggedSeal(tag, p), (s: Sector) => TaggedUnlock(tag, s))
  }

  lemma TaggedValid(tag: byte)
    ensures TaggedPassword(tag).Valid()
  {
    hide TaggedUnlock, TaggedSeal;
    forall p: Payload
      ensures TaggedUnlock(tag, TaggedSeal(tag, p)) == Some(p)
    {
      TaggedRoundTrip(tag, p);
    }
  }

  lemma TaggedRoundTrip(tag: byte, p: Payload)
    ensures TaggedUnlock(tag, TaggedSeal(tag, p)) == Some(p)
  {
    hide LongAt, LongByte;
    var s := TaggedSeal(tag, p);
    LongRoundTrip(s, 0, p.volumeSize);
    assert s[8..72] == p.volumeKey;
    assert s[72..104] == p.hmacKey;
  }

  /** Sectors stored as they are, and an HMAC that ignores its input. */
  function PlainCrypto(): (c: Crypto)
  {
    Crypto(_ => Cipher((_, x) => x, (_, x) => x), _ => _ => seq(32, _ => 0))
  }

  /** What the container asks of cryptography and of two passwords can be met, with any distinct tags. */
  lemma CryptoExists(a: byte, b: byte)
    requires a != b
    ensures PlainCrypto().Valid() && TaggedPassword(a).Valid() && TaggedPassword(b).Valid()
    ensures TaggedPassword(a).Rejects(TaggedPassword(b)) && TaggedPassword(b).Rejects(TaggedPassword(a))
  {
    TaggedValid(a);
    TaggedValid(b);
  }
}
