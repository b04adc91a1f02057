/**
  Fingerprints of an EC key and the process-wide cache they are kept in.
  The cache (lib->encoding's cache) maps an encoding type and the address
  of an EC_KEY to the fingerprint bytes; openssl_ec_fingerprint consults it
  first, computes a SHA-1 fingerprint on a miss and stores it.
 */
module Fingerprint {
  import opened Options
  import opened Chunk
  import opened Primitives

  /** The values of key_encoding_type_t this key tells apart; every other
      value of that enumeration is OtherEncoding. */
  datatype KeyEncodingType =
    | KeyIdPubkeySha1      // KEY_ID_PUBKEY_SHA1: SHA-1 of the encoded public point
    | KeyIdPubkeyInfoSha1  // KEY_ID_PUBKEY_INFO_SHA1: SHA-1 of the DER SubjectPublicKeyInfo
    | KeyPubSpkiAsn1Der    // KEY_PUB_SPKI_ASN1_DER: the DER SubjectPublicKeyInfo itself
    | OtherEncoding(code: nat)

  /** A memory address; addresses of freed memory may be handed out again. */
  type Addr = nat

  /** An EC_KEY: where it lives, and what it holds. */
  datatype EcKey = EcKey(addr: Addr, material: EcMaterial)

  /** The cache is keyed by encoding type and EC_KEY address only: it sees
      the identity of a key, not its contents. */
  datatype CacheKey = CacheKey(kind: KeyEncodingType, owner: Addr)

  type Cache = map<CacheKey, Bytes>

  /** The fingerprint (None for FALSE), the cache afterwards, and how many
      times SHA-1 ran. */
  datatype FpOutcome = FpOutcome(fp: Option<Bytes>, cache: Cache, hashes: nat)

  /** The octets a fingerprint type hashes, or None when the type is not one
      this key fingerprints. */
  function FingerprintInput(be: Backend, m: EcMaterial, kind: KeyEncodingType): Option<Bytes>
  {
    match kind
    case KeyIdPubkeySha1 => Some(be.i2oEcPublicKey(m))
    case KeyIdPubkeyInfoSha1 => Some(be.i2dEcPubkey(m))
    case _ => None
  }

  /** openssl_ec_fingerprint. */
  function EcFingerprint(be: Backend, cache: Cache, ec: EcKey, kind: KeyEncodingType): (r: FpOutcome)
    // a hit returns the cached bytes and hashes nothing
    ensures CacheKey(kind, ec.addr) in cache ==>
      r == FpOutcome(Some(cache[CacheKey(kind, ec.addr)]), cache, 0)
    // on a miss, only the two identifier types are computed
    ensures CacheKey(kind, ec.addr) !in cache && !(kind.KeyIdPubkeySha1? || kind.KeyIdPubkeyInfoSha1?) ==>
      r == FpOutcome(None, cache, 0)
    // on a miss without a SHA-1 hasher, nothing is computed or cached
    ensures CacheKey(kind, ec.addr) !in cache && be.sha1Hasher.None? ==>
      r == FpOutcome(None, cache, 0)
    // a computed fingerprint is SHA-1 of the point encoding or of the
    // SubjectPublicKeyInfo, hashed once and stored under (kind, ec) alone
    ensures CacheKey(kind, ec.addr) !in cache && r.fp.Some? ==>
      && be.sha1Hasher.Some?
      && (kind.KeyIdPubkeySha1? ==> r.fp.value == be.sha1Hasher.value(be.i2oEcPublicKey(ec.material)))
      && (kind.KeyIdPubkeyInfoSha1? ==> r.fp.value == be.sha1Hasher.value(be.i2dEcPubkey(ec.material)))
      && r.hashes == 1
      && r.cache == cache[CacheKey(kind, ec.addr) := r.fp.value]
    // a miss for a supported type with SHA-1 present always succeeds
    ensures CacheKey(kind, ec.addr) !in cache && FingerprintInput(be, ec.material, kind).Some? && be.sha1Hasher.Some? ==>
      r.fp == Some(be.sha1Hasher.value(FingerprintInput(be, ec.material, kind).value))
    ensures r.fp.None? ==> r.cache == cache && r.hashes == 0
    // whatever is returned is what the cache now holds for (kind, ec)
    ensures r.fp.Some? ==> CacheKey(kind, ec.addr) in r.cache && r.cache[CacheKey(kind, ec.addr)] == r.fp.value
  {
    var key := CacheKey(kind, ec.addr);
    if key in cache then
      FpOutcome(Some(cache[key]), cache, 0)
    else
      match FingerprintInput(be, ec.material, kind)
      case None => FpOutcome(None, cache, 0)
      case Some(encoding) =>
        match be.sha1Hasher
        case None => FpOutcome(None, cache, 0)
        case Some(sha1) =>
          var fp := sha1(encoding);
          FpOutcome(Some(fp), cache[key := fp], 1)
  }

  /** A second request for the same fingerprint is answered from the cache:
      the same bytes, no hashing, the cache unchanged. */
  lemma FingerprintIsCached(be: Backend, cache: Cache, ec: EcKey, kind: KeyEncodingType)
    requires EcFingerprint(be, cache, ec, kind).fp.Some?
    ensures var first := EcFingerprint(be, cache, ec, kind);
            EcFingerprint(be, first.cache, ec, kind) == FpOutcome(first.fp, first.cache, 0)
  {
  }

  /** The encoding buffers one openssl_ec_fingerprint call allocates, and
      how many of them it frees again before returning. */
  datatype BufferUse = BufferUse(allocs: nat, frees: nat)

  /** Buffer use of openssl_ec_fingerprint as written: on a miss for a
      supported type the encoding is allocated, but it is freed only when no
      SHA-1 hasher exists; the path that hashes returns without freeing it. */
  function EncodingBuffersAsWritten(be: Backend, cache: Cache, ec: EcKey, kind: KeyEncodingType): (u: BufferUse)
    ensures u.frees <= u.allocs <= 1
    // the encoding is allocated exactly on a miss for a supported type ...
    ensures u.allocs == 1 <==>
      CacheKey(kind, ec.addr) !in cache && (kind.KeyIdPubkeySha1? || kind.KeyIdPubkeyInfoSha1?)
    // ... and freed only when it is never hashed
    ensures u.frees == 1 <==> u.allocs == 1 && be.sha1Hasher.None?
    ensures u.frees == 1 ==> EcFingerprint(be, cache, ec, kind).hashes == 0
  {
    if CacheKey(kind, ec.addr) in cache || FingerprintInput(be, ec.material, kind).None? then BufferUse(0, 0)
    else if be.sha1Hasher.None? then BufferUse(1, 1)
    else BufferUse(1, 0)
  }

  /** As written, every fingerprint actually computed leaks its encoding
      buffer. */
  lemma ComputedFingerprintLeaksAsWritten(be: Backend, cache: Cache, ec: EcKey, kind: KeyEncodingType)
    requires EcFingerprint(be, cache, ec, kind).hashes == 1
    ensures EncodingBuffersAsWritten(be, cache, ec, kind) == BufferUse(1, 0)
  {
  }

  /** Buffer use once the encoding is also freed after hashing: exactly the
      calls that encode the key allocate a buffer, and every buffer
      allocated is freed. */
  function EncodingBuffers(be: Backend, cache: Cache, ec: EcKey, kind: KeyEncodingType): (u: BufferUse)
    ensures u.frees == u.allocs
    ensures u.allocs == 1 <==>
      CacheKey(kind, ec.addr) !in cache && (kind.KeyIdPubkeySha1? || kind.KeyIdPubkeyInfoSha1?)
    ensures u.allocs <= 1
    ensures EcFingerprint(be, cache, ec, kind).hashes <= u.allocs
  {
    if CacheKey(kind, ec.addr) in cache || FingerprintInput(be, ec.material, kind).None? then BufferUse(0, 0)
    else BufferUse(1, 1)
  }

  /** clear_cache: forget every entry of one EC_KEY, keep all others. */
  function ClearCache(cache: Cache, owner: Addr): (c: Cache)
    ensures forall k :: k in c <==> k in cache && k.owner != owner
    ensures forall k :: k in c ==> c[k] == cache[k]
  {
    map k | k in cache && k.owner != owner :: cache[k]
  }
}
