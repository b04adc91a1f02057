/**
  The builder that turns typed parts into an EC public key. It has two
  live states, empty and holding a key, and a cancelled one. A DER blob
  supplied while empty is loaded; anything else drops the key held, if any,
  and cancels.
 */
module KeyBuilder {
  import opened Options
  import opened Chunk
  import opened Primitives
  import opened EcVerify
  import opened Fingerprint
  import opened EcPublicKey

  /** The values of builder_part_t, with their argument: only
      BUILD_BLOB_ASN1_DER is recognised, every other part is OtherPart. */
  datatype BuilderPart = BuildBlobAsn1Der(blob: Bytes) | OtherPart(code: nat)

  /** private_builder_t: the key loaded so far (None while NULL), or a
      builder that was cancelled. */
  datatype Builder = Collecting(key: Option<Addr>) | Cancelled

  /** A builder holding a key owns one live reference to it. */
  ghost predicate Holds(h: Heap, b: Builder)
  {
    b.Collecting? && b.key.Some? ==> b.key.value in h.objs && h.objs[b.key.value].ref >= 1
  }

  /** openssl_ec_public_key_builder: a builder only for KEY_ECDSA, starting
      without a key. */
  function NewBuilder(t: KeyType): (b: Option<Builder>)
    ensures b.Some? <==> t == KeyEcdsa
    ensures b.Some? ==> b.value == Collecting(None)
  {
    if t == KeyEcdsa then Some(Collecting(None)) else None
  }

  /** add. p and ecAddr are the fresh addresses a load would obtain. */
  function Add(be: Backend, h: Heap, b: Builder, part: BuilderPart, p: Addr, ecAddr: Addr): (r: (Heap, Builder))
    requires Holds(h, b)
    requires p !in h.objs && !EcLive(h.objs, ecAddr)
    ensures Holds(r.0, r.1)
    // a blob while empty is loaded, and the builder is not cancelled even
    // when the blob does not decode
    ensures b == Collecting(None) && part.BuildBlobAsn1Der? ==>
      && r.1.Collecting?
      && (be.d2iEcPubkey(part.blob).None? ==> r == (h, Collecting(None)))
      && (be.d2iEcPubkey(part.blob).Some? ==>
            && r.1 == Collecting(Some(p))
            && p in r.0.objs
            && r.0.objs[p] == KeyObj(Some(EcKey(ecAddr, be.d2iEcPubkey(part.blob).value)), 1)
            // nothing else changes: every other object and the cache stay as they were
            && r.0.objs.Keys == h.objs.Keys + {p}
            && (forall q :: q in h.objs ==> r.0.objs[q] == h.objs[q])
            && r.0.cache == h.cache)
    // an unrecognised part while empty cancels and changes nothing else
    ensures b == Collecting(None) && part.OtherPart? ==> r == (h, Cancelled)
    // any part while a key is held drops the builder's reference and cancels
    ensures b.Collecting? && b.key.Some? ==>
      && r.1 == Cancelled
      && r.0 == Destroy(h, b.key.value)
      && (b.key.value in r.0.objs <==> h.objs[b.key.value].ref > 1)
      && (b.key.value in r.0.objs ==> r.0.objs[b.key.value].ref == h.objs[b.key.value].ref - 1)
      && (forall q :: q in h.objs && q != b.key.value ==> q in r.0.objs && r.0.objs[q] == h.objs[q])
    ensures b.Cancelled? ==> r == (h, Cancelled)
  {
    match b
    case Cancelled => (h, Cancelled)
    case Collecting(None) =>
      (match part
       case BuildBlobAsn1Der(blob) =>
         var loaded := Load(be, h, blob, p, ecAddr);
         (loaded.0, Collecting(loaded.1))
       case OtherPart(_) => (h, Cancelled))
    case Collecting(Some(key)) => (Destroy(h, key), Cancelled)
  }

  /** build: hand out the key held, which may be none; a cancelled builder
      yields none. */
  function Build(b: Builder): (k: Option<Addr>)
    ensures k.Some? ==> b == Collecting(k)
    ensures b.Collecting? ==> k == b.key
    ensures b.Cancelled? ==> k.None?
  {
    match b
    case Collecting(key) => key
    case Cancelled => None
  }

  /** add keeps the heap invariant. */
  lemma AddKeepsValid(be: Backend, h: Heap, b: Builder, part: BuilderPart, p: Addr, ecAddr: Addr)
    requires Valid(h) && Holds(h, b)
    requires p !in h.objs && !EcLive(h.objs, ecAddr)
    ensures Valid(Add(be, h, b, part, p, ecAddr).0)
  {
    match b
    case Cancelled =>
    case Collecting(None) =>
      if part.BuildBlobAsn1Der? {
        LoadKeepsValid(be, h, part.blob, p, ecAddr);
      }
    case Collecting(Some(key)) =>
      DestroyKeepsValid(h, key);
  }

  /** One decodable blob yields a live key with a single reference. */
  lemma OneBlobYieldsKey(be: Backend, h: Heap, blob: Bytes, p: Addr, ecAddr: Addr)
    requires Valid(h) && p !in h.objs && !EcLive(h.objs, ecAddr)
    requires be.d2iEcPubkey(blob).Some?
    ensures var r := Add(be, h, NewBuilder(KeyEcdsa).value, BuildBlobAsn1Der(blob), p, ecAddr);
      && Build(r.1) == Some(p)
      && p in r.0.objs && r.0.objs[p].ref == 1
      && r.0.objs[p].ec == Some(EcKey(ecAddr, be.d2iEcPubkey(blob).value))
      && Valid(r.0)
  {
    AddKeepsValid(be, h, Collecting(None), BuildBlobAsn1Der(blob), p, ecAddr);
  }

  /** A blob that does not decode leaves the builder empty and usable: a
      later decodable blob still yields a key. */
  lemma FailedBlobDoesNotCancel(be: Backend, h: Heap, bad: Bytes, good: Bytes, p: Addr, ecAddr: Addr)
    requires p !in h.objs && !EcLive(h.objs, ecAddr)
    requires be.d2iEcPubkey(bad).None? && be.d2iEcPubkey(good).Some?
    ensures var r1 := Add(be, h, Collecting(None), BuildBlobAsn1Der(bad), p, ecAddr);
      && r1 == (h, Collecting(None))
      && Build(r1.1).None?
      && Build(Add(be, r1.0, r1.1, BuildBlobAsn1Der(good), p, ecAddr).1) == Some(p)
  {
  }

  /** A second part after a key was loaded destroys that key, and nothing
      is left behind: the heap, cache included, is exactly what it was
      before the builder started, and build yields no key. */
  lemma SecondPartLeavesNothing(be: Backend, h: Heap, blob: Bytes, second: BuilderPart,
                                p: Addr, ecAddr: Addr, p2: Addr, ecAddr2: Addr)
    requires Valid(h) && p !in h.objs && !EcLive(h.objs, ecAddr)
    requires be.d2iEcPubkey(blob).Some?
    requires var r1 := Add(be, h, Collecting(None), BuildBlobAsn1Der(blob), p, ecAddr);
      p2 !in r1.0.objs && !EcLive(r1.0.objs, ecAddr2)
    ensures var r1 := Add(be, h, Collecting(None), BuildBlobAsn1Der(blob), p, ecAddr);
      var r2 := Add(be, r1.0, r1.1, second, p2, ecAddr2);
      r2.0 == h && Build(r2.1).None?
  {
    var r1 := Add(be, h, Collecting(None), BuildBlobAsn1Der(blob), p, ecAddr);
    var r2 := Add(be, r1.0, r1.1, second, p2, ecAddr2);
    assert r1.1 == Collecting(Some(p));
    assert r2.0 == Destroy(r1.0, p);
    assert r2.0.objs == h.objs;
    forall k | k in h.cache
      ensures k.owner != ecAddr
    {
      assert EcLive(h.objs, k.owner);
    }
    assert r2.0.cache == h.cache;
  }

  /** The life of one key end to end: built from a decodable blob, it
      rejects every scheme outside the table, and asking twice for a
      fingerprint gives the same bytes for one SHA-1 computation. */
  lemma BuildVerifyFingerprint(be: Backend, h: Heap, blob: Bytes, p: Addr, ecAddr: Addr,
                               code: nat, data: Bytes, signature: Bytes, kind: KeyEncodingType)
    requires Valid(h) && p !in h.objs && !EcLive(h.objs, ecAddr)
    requires be.d2iEcPubkey(blob).Some? && be.sha1Hasher.Some?
    requires kind.KeyIdPubkeySha1? || kind.KeyIdPubkeyInfoSha1?
    ensures var r := Add(be, h, NewBuilder(KeyEcdsa).value, BuildBlobAsn1Der(blob), p, ecAddr);
      && Build(r.1) == Some(p)
      && !Verify(be, r.0.objs[p].ec.value.material, OtherScheme(code), data, signature).valid
      && var f1 := GetFingerprint(be, r.0, p, kind);
         var f2 := GetFingerprint(be, f1.heap, p, kind);
         && f1.fp.Some?
         && f2.fp == f1.fp
         && f1.hashes + f2.hashes == 1
  {
    var r := Add(be, h, Collecting(None), BuildBlobAsn1Der(blob), p, ecAddr);
    assert !EcLive(h.objs, ecAddr);
    assert CacheKey(kind, ecAddr) !in r.0.cache;
  }
}
