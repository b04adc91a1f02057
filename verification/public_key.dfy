/**
  The OpenSSL EC public key object: its constant and unsupported
  operations, its encoding and fingerprint, and its life cycle. Objects live
  in a Heap, which maps the address of every live object to its EC_KEY
  (None while NULL) and reference count, next to the process-wide
  fingerprint cache. Allocation is a parameter: the address the allocator
  returns must be free, and may be one that was freed before.
 */
module EcPublicKey {
  import opened Options
  import opened Chunk
  import opened Primitives
  import opened Fingerprint

  /** The values of key_type_t the key tells apart. */
  datatype KeyType = KeyEcdsa | OtherKeyType(code: nat)

  /** private_openssl_ec_public_key_t: the EC_KEY and the reference count. */
  datatype KeyObj = KeyObj(ec: Option<EcKey>, ref: nat)

  /** Live key objects by address, and the fingerprint cache. */
  datatype Heap = Heap(objs: map<Addr, KeyObj>, cache: Cache)

  /** get_fingerprint's answer, the heap it leaves behind, the SHA-1 runs
      and the encoding buffers it used. */
  datatype FpResult = FpResult(heap: Heap, fp: Option<Bytes>, hashes: nat, buffers: BufferUse)

  /** Some live object owns an EC_KEY at address a. */
  ghost predicate EcLive(objs: map<Addr, KeyObj>, a: Addr)
  {
    exists p :: p in objs && objs[p].ec.Some? && objs[p].ec.value.addr == a
  }

  /** The cache holds entries only for EC_KEYs of live objects. */
  ghost predicate CacheOwned(h: Heap)
  {
    forall k :: k in h.cache ==> EcLive(h.objs, k.owner)
  }

  /** What every operation keeps: a live object holds at least one
      reference, no EC_KEY is owned by two objects, and the cache is owned,
      so that no stale entry can answer for a later EC_KEY at a reused
      address. */
  ghost predicate Valid(h: Heap)
  {
    && (forall p :: p in h.objs ==> h.objs[p].ref >= 1)
    && (forall p, q :: p in h.objs && q in h.objs && p != q && h.objs[p].ec.Some? && h.objs[q].ec.Some? ==>
          h.objs[p].ec.value.addr != h.objs[q].ec.value.addr)
    && CacheOwned(h)
  }

  /** A cache stays owned by objects that all survive with their EC_KEYs. */
  lemma CacheStillOwned(h: Heap, objs': map<Addr, KeyObj>)
    requires forall q :: q in h.objs ==> q in objs' && objs'[q].ec == h.objs[q].ec
    ensures CacheOwned(h) ==> CacheOwned(h.(objs := objs'))
  {
    if CacheOwned(h) {
      forall k | k in h.cache
        ensures EcLive(objs', k.owner)
      {
        var q :| q in h.objs && h.objs[q].ec.Some? && h.objs[q].ec.value.addr == k.owner;
        assert q in objs' && objs'[q].ec == h.objs[q].ec;
      }
    }
  }

  /** get_type: always KEY_ECDSA. */
  function GetType(): (t: KeyType)
    ensures t == KeyEcdsa
  {
    KeyEcdsa
  }

  /** encrypt_: not supported by an EC key; fails and leaves the output
      chunk as it was. */
  function Encrypt(crypto: Bytes, plain: Bytes): (r: (bool, Bytes))
    ensures !r.0
    ensures r.1 == plain
  {
    (false, plain)
  }

  /** get_keysize: the width of a field element of the key's group. */
  function GetKeysize(be: Backend, m: EcMaterial): nat
  {
    be.fieldElementLen(m)
  }

  /** get_encoding: only the DER SubjectPublicKeyInfo is produced. */
  function GetEncoding(be: Backend, m: EcMaterial, kind: KeyEncodingType): (r: Option<Bytes>)
    ensures r.Some? <==> kind == KeyPubSpkiAsn1Der
    ensures r.Some? ==> r.value == be.i2dEcPubkey(m)
  {
    match kind
    case KeyPubSpkiAsn1Der => Some(be.i2dEcPubkey(m))
    case _ => None
  }

  /** The SubjectPublicKeyInfo fingerprint is SHA-1 of what get_encoding
      returns for the SubjectPublicKeyInfo type. */
  lemma InfoFingerprintHashesEncoding(be: Backend, cache: Cache, ec: EcKey)
    requires CacheKey(KeyIdPubkeyInfoSha1, ec.addr) !in cache
    requires be.sha1Hasher.Some?
    ensures EcFingerprint(be, cache, ec, KeyIdPubkeyInfoSha1).fp
         == Some(be.sha1Hasher.value(GetEncoding(be, ec.material, KeyPubSpkiAsn1Der).value))
  {
  }

  /** get_fingerprint: openssl_ec_fingerprint on the object's EC_KEY. */
  function GetFingerprint(be: Backend, h: Heap, p: Addr, kind: KeyEncodingType): (r: FpResult)
    requires p in h.objs && h.objs[p].ec.Some?
    ensures r.heap.objs == h.objs
    // entries are only ever added, and only under (kind, this EC_KEY)
    ensures h.cache.Keys <= r.heap.cache.Keys <= h.cache.Keys + {CacheKey(kind, h.objs[p].ec.value.addr)}
    ensures forall k :: k in h.cache ==> r.heap.cache[k] == h.cache[k]
    ensures r.fp.Some? ==>
      var key := CacheKey(kind, h.objs[p].ec.value.addr);
      key in r.heap.cache && r.heap.cache[key] == r.fp.value
    ensures r.hashes <= 1
    // a cache hit answers with the cached bytes and hashes nothing
    ensures var key := CacheKey(kind, h.objs[p].ec.value.addr);
      key in h.cache ==> r.fp == Some(h.cache[key]) && r.hashes == 0 && r.heap == h
    // a miss for a supported type with SHA-1 present answers SHA-1 of the encoding
    ensures var ec := h.objs[p].ec.value;
      CacheKey(kind, ec.addr) !in h.cache && FingerprintInput(be, ec.material, kind).Some? && be.sha1Hasher.Some? ==>
        r.fp == Some(be.sha1Hasher.value(FingerprintInput(be, ec.material, kind).value)) && r.hashes == 1
    // a failure leaves the heap, cache included, as it was
    ensures r.fp.None? ==> r.heap == h && r.hashes == 0
    // a fingerprint computed here leaves its encoding buffer allocated,
    // because openssl_ec_fingerprint frees it only when no hasher exists
    ensures r.hashes == 1 ==> r.buffers == BufferUse(1, 0)
    ensures r.buffers.frees <= r.buffers.allocs <= 1
  {
    var ec := h.objs[p].ec.value;
    var out := EcFingerprint(be, h.cache, ec, kind);
    FpResult(h.(cache := out.cache), out.fp, out.hashes, EncodingBuffersAsWritten(be, h.cache, ec, kind))
  }

  /** create_empty: a new object at a free address, with no EC_KEY and one
      reference; nothing else changes. */
  function CreateEmpty(h: Heap, p: Addr): (h': Heap)
    requires p !in h.objs
    ensures p in h'.objs && h'.objs[p] == KeyObj(None, 1)
    ensures h'.objs.Keys == h.objs.Keys + {p}
    ensures forall q :: q in h.objs ==> h'.objs[q] == h.objs[q]
    ensures h'.cache == h.cache
  {
    h.(objs := h.objs[p := KeyObj(None, 1)])
  }

  /** get_ref: one more reference to the same object. */
  function GetRef(h: Heap, p: Addr): (r: (Heap, Addr))
    requires p in h.objs
    ensures r.1 == p
    ensures r.0.objs.Keys == h.objs.Keys
    ensures r.0.objs[p] == h.objs[p].(ref := h.objs[p].ref + 1)
    ensures forall q :: q in h.objs && q != p ==> r.0.objs[q] == h.objs[q]
    ensures r.0.cache == h.cache
  {
    (h.(objs := h.objs[p := h.objs[p].(ref := h.objs[p].ref + 1)]), p)
  }

  /** destroy: drop one reference; the last one frees the object, its
      EC_KEY and every cache entry of that EC_KEY. */
  function Destroy(h: Heap, p: Addr): (h': Heap)
    requires p in h.objs && h.objs[p].ref >= 1
    ensures p in h'.objs <==> h.objs[p].ref > 1
    ensures p in h'.objs ==> h'.objs[p] == h.objs[p].(ref := h.objs[p].ref - 1)
    ensures h'.objs.Keys - {p} == h.objs.Keys - {p}
    ensures forall q :: q in h.objs && q != p ==> q in h'.objs && h'.objs[q] == h.objs[q]
    // the cache changes only when the last reference goes and there is an EC_KEY
    ensures h.objs[p].ref > 1 || h.objs[p].ec.None? ==> h'.cache == h.cache
    ensures h.objs[p].ref == 1 && h.objs[p].ec.Some? ==>
      forall k :: k in h'.cache <==> k in h.cache && k.owner != h.objs[p].ec.value.addr
    ensures forall k :: k in h'.cache ==> k in h.cache && h'.cache[k] == h.cache[k]
  {
    var obj := h.objs[p];
    if obj.ref > 1 then
      h.(objs := h.objs[p := obj.(ref := obj.ref - 1)])
    else
      var cache := if obj.ec.Some? then ClearCache(h.cache, obj.ec.value.addr) else h.cache;
      Heap(h.objs - {p}, cache)
  }

  /** load: decode a DER SubjectPublicKeyInfo into a new object with one
      reference; when decoding fails the new object is destroyed again and
      the heap is exactly as before. */
  function Load(be: Backend, h: Heap, blob: Bytes, p: Addr, ecAddr: Addr): (r: (Heap, Option<Addr>))
    requires p !in h.objs
    requires !EcLive(h.objs, ecAddr)
    ensures be.d2iEcPubkey(blob).None? ==> r == (h, None)
    ensures be.d2iEcPubkey(blob).Some? ==>
      && r.1 == Some(p)
      && p in r.0.objs
      && r.0.objs[p] == KeyObj(Some(EcKey(ecAddr, be.d2iEcPubkey(blob).value)), 1)
      && r.0.objs.Keys == h.objs.Keys + {p}
      && (forall q :: q in h.objs ==> r.0.objs[q] == h.objs[q])
      && r.0.cache == h.cache
  {
    var created := CreateEmpty(h, p);
    match be.d2iEcPubkey(blob)
    case None =>
      var h' := Destroy(created, p);
      assert h'.objs == h.objs;
      (h', None)
    case Some(m) =>
      (created.(objs := created.objs[p := KeyObj(Some(EcKey(ecAddr, m)), 1)]), Some(p))
  }

  /** get_fingerprint keeps Valid: it only adds entries for the EC_KEY of
      a live object. */
  lemma GetFingerprintKeepsValid(be: Backend, h: Heap, p: Addr, kind: KeyEncodingType)
    requires Valid(h)
    requires p in h.objs && h.objs[p].ec.Some?
    ensures Valid(GetFingerprint(be, h, p, kind).heap)
  {
    assert EcLive(h.objs, h.objs[p].ec.value.addr);
  }

  /** create_empty keeps Valid. */
  lemma CreateEmptyKeepsValid(h: Heap, p: Addr)
    requires Valid(h) && p !in h.objs
    ensures Valid(CreateEmpty(h, p))
  {
    CacheStillOwned(h, CreateEmpty(h, p).objs);
  }

  /** get_ref keeps Valid. */
  lemma GetRefKeepsValid(h: Heap, p: Addr)
    requires Valid(h) && p in h.objs
    ensures Valid(GetRef(h, p).0)
  {
    CacheStillOwned(h, GetRef(h, p).0.objs);
  }

  /** destroy keeps Valid: when the object is freed, every remaining cache
      entry belongs to the EC_KEY of some other, still live, object. */
  lemma DestroyKeepsValid(h: Heap, p: Addr)
    requires Valid(h) && p in h.objs && h.objs[p].ref >= 1
    ensures Valid(Destroy(h, p))
  {
    var h' := Destroy(h, p);
    if h.objs[p].ref > 1 {
      CacheStillOwned(h, h'.objs);
    } else {
      forall k | k in h'.cache
        ensures EcLive(h'.objs, k.owner)
      {
        var q :| q in h.objs && h.objs[q].ec.Some? && h.objs[q].ec.value.addr == k.owner;
        assert h.objs[p].ec.Some? ==> k.owner != h.objs[p].ec.value.addr;
        assert q != p;
        assert q in h'.objs && h'.objs[q] == h.objs[q];
      }
    }
  }

  /** load keeps Valid: the new EC_KEY sits at an address no live object
      owns. */
  lemma LoadKeepsValid(be: Backend, h: Heap, blob: Bytes, p: Addr, ecAddr: Addr)
    requires Valid(h) && p !in h.objs && !EcLive(h.objs, ecAddr)
    ensures Valid(Load(be, h, blob, p, ecAddr).0)
  {
    CacheStillOwned(h, Load(be, h, blob, p, ecAddr).0.objs);
  }

  /** n calls of get_ref. */
  function AcquireN(h: Heap, p: Addr, n: nat): (h': Heap)
    requires p in h.objs
    ensures h'.objs.Keys == h.objs.Keys
    ensures h'.objs[p] == h.objs[p].(ref := h.objs[p].ref + n)
    ensures forall q :: q in h.objs && q != p ==> h'.objs[q] == h.objs[q]
    ensures h'.cache == h.cache
    decreases n
  {
    if n == 0 then h else GetRef(AcquireN(h, p, n - 1), p).0
  }

  /** n calls of destroy. While fewer references are dropped than the
      object holds, it stays live and the cache is untouched; dropping
      exactly all of them frees it. */
  function ReleaseN(h: Heap, p: Addr, n: nat): (h': Heap)
    requires n == 0 || (p in h.objs && h.objs[p].ref >= n)
    ensures p in h.objs && h.objs[p].ref > n ==>
      && p in h'.objs
      && h'.objs[p] == h.objs[p].(ref := h.objs[p].ref - n)
      && h'.cache == h.cache
    ensures n > 0 && h.objs[p].ref == n ==> p !in h'.objs
    decreases n
  {
    if n == 0 then h else ReleaseN(Destroy(h, p), p, n - 1)
  }

  /** After n calls of get_ref, n + k calls of destroy do what k calls
      would have done on the object before: in particular n calls restore
      the heap exactly, and one more frees the object. */
  lemma {:induction false} ReleaseAfterAcquire(h: Heap, p: Addr, n: nat, k: nat)
    requires p in h.objs && h.objs[p].ref >= 1
    requires h.objs[p].ref >= k
    ensures ReleaseN(AcquireN(h, p, n), p, n + k) == ReleaseN(h, p, k)
    decreases n
  {
    if n > 0 {
      ReleaseAfterAcquire(h, p, n - 1, k);
      assert n - 1 + k == n + k - 1;
      ReleaseAfterAcquireStep(h, p, n, k);
    }
  }

  /** The inductive step of ReleaseAfterAcquire: the first of the n + k
      destroys undoes the n-th get_ref. */
  lemma ReleaseAfterAcquireStep(h: Heap, p: Addr, n: nat, k: nat)
    requires p in h.objs && h.objs[p].ref >= 1 && h.objs[p].ref >= k && n > 0
    requires ReleaseN(AcquireN(h, p, n - 1), p, n + k - 1) == ReleaseN(h, p, k)
    ensures ReleaseN(AcquireN(h, p, n), p, n + k) == ReleaseN(h, p, k)
  {
    var a := AcquireN(h, p, n - 1);
    AcquireNUnfold(h, p, n);
    DestroyUndoesGetRef(a, p);
    ReleaseOne(AcquireN(h, p, n), a, p, n + k);
  }

  /** The last of n get_ref calls is one get_ref on the first n - 1. */
  lemma AcquireNUnfold(h: Heap, p: Addr, n: nat)
    requires p in h.objs && n > 0
    ensures AcquireN(h, p, n) == GetRef(AcquireN(h, p, n - 1), p).0
  {
  }

  /** t destroys are one destroy followed by t - 1 more. */
  lemma ReleaseOne(x: Heap, y: Heap, p: Addr, t: nat)
    requires t > 0 && p in x.objs && x.objs[p].ref >= t
    requires Destroy(x, p) == y
    ensures ReleaseN(x, p, t) == ReleaseN(y, p, t - 1)
  {
  }

  /** destroy right after get_ref leaves the heap as it was. */
  lemma DestroyUndoesGetRef(h: Heap, p: Addr)
    requires p in h.objs && h.objs[p].ref >= 1
    ensures Destroy(GetRef(h, p).0, p) == h
  {
    var h' := Destroy(GetRef(h, p).0, p);
    assert h'.objs == h.objs;
  }

  /** Balanced reference counting: n get_ref calls need exactly n destroy
      calls to bring the heap back, and the object is freed (and its cache
      entries purged) only by the destroy that drops its last reference. */
  lemma BalancedReferences(h: Heap, p: Addr, n: nat)
    requires p in h.objs && h.objs[p].ref == 1 && h.objs[p].ec.Some?
    ensures ReleaseN(AcquireN(h, p, n), p, n) == h
    ensures var freed := ReleaseN(AcquireN(h, p, n), p, n + 1);
      && p !in freed.objs
      && forall kind :: CacheKey(kind, h.objs[p].ec.value.addr) !in freed.cache
  {
    ReleaseAfterAcquire(h, p, n, 0);
    ReleaseAfterAcquire(h, p, n, 1);
    assert ReleaseN(h, p, 1) == Destroy(h, p);
  }

  /** No stale fingerprint: once an object is freed, a new object whose
      EC_KEY reuses the old address finds nothing in the cache, so its
      fingerprint is computed afresh from its own key. */
  lemma NoStaleFingerprint(be: Backend, h: Heap, p: Addr, blob: Bytes, p2: Addr, kind: KeyEncodingType)
    requires Valid(h)
    requires p in h.objs && h.objs[p].ref == 1 && h.objs[p].ec.Some?
    requires var h1 := Destroy(h, p); p2 !in h1.objs
    requires be.d2iEcPubkey(blob).Some? && be.sha1Hasher.Some?
    requires kind.KeyIdPubkeySha1? || kind.KeyIdPubkeyInfoSha1?
    ensures var reused := h.objs[p].ec.value.addr;
      var h1 := Destroy(h, p);
      !EcLive(h1.objs, reused) &&
      var loaded := Load(be, h1, blob, p2, reused);
      var r := GetFingerprint(be, loaded.0, p2, kind);
      && r.hashes == 1
      && r.fp == Some(be.sha1Hasher.value(FingerprintInput(be, be.d2iEcPubkey(blob).value, kind).value))
  {
    var reused := h.objs[p].ec.value.addr;
    var h1 := Destroy(h, p);
    forall q | q in h1.objs && h1.objs[q].ec.Some?
      ensures h1.objs[q].ec.value.addr != reused
    {
      assert q != p && q in h.objs && h1.objs[q] == h.objs[q];
    }
    var loaded := Load(be, h1, blob, p2, reused);
    assert CacheKey(kind, reused) !in loaded.0.cache;
  }
}
