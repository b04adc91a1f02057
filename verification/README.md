# OpenSSL EC public key of strongSwan, modelled in Dafny

This project models the control logic of strongSwan's OpenSSL-backed
elliptic-curve public key (`openssl_ec_public_key.c`). It covers:

- the dispatch from signature scheme to digest and signature format in `verify`;
- verification of a fixed-width r || s signature, as in section 7 of RFC 4754;
- verification of the default SHA-1 scheme, whose signature is a DER
  `ECDSA-Sig-Value` (section 2.2.3 of RFC 3279) that may carry leading 0x00
  padding;
- fingerprints and the process-wide fingerprint cache;
- `get_encoding`, `get_type` and the unsupported `encrypt`;
- the reference-counted life cycle (`create_empty`, `load`, `get_ref`, `destroy`);
- the key builder (`add`, `build`, and the builder constructor).

OpenSSL and the strongSwan hasher factory are not modelled. They are the
fields of a `Backend` record of arbitrary functions (`Primitives.Backend`),
which every operation takes as a parameter. These are `openssl_hash_chunk`,
`ECDSA_SIG_new`, `openssl_bn_split`, `d2i_ECDSA_SIG`, `ECDSA_do_verify`,
`EC_FIELD_ELEMENT_LEN`, `d2i_EC_PUBKEY`, `i2d_EC_PUBKEY`, `i2o_ECPublicKey`
and `create_hasher(HASH_SHA1)`. Every property holds for every backend.

Verification results record the backend calls they make, in order
(`EcVerify.Call`). This is how the contracts say what is tried before
what: a failed hash stops the call before the signature is parsed, and a
DER signature that does not parse is rejected without hashing.

Memory is a `Heap`: the live key objects by address, each holding its
`EC_KEY` (None while NULL) and its reference count, together with the
fingerprint cache. The cache is keyed by encoding type and `EC_KEY` address.
The addresses that `malloc` and `d2i_EC_PUBKEY` return are parameters. They
must be free, and they may be addresses that were freed before, so purging
the cache on destruction matters. `EcPublicKey.Valid` is the heap invariant:

- every live object holds at least one reference;
- no two objects own the same `EC_KEY`;
- the cache holds entries only for `EC_KEY`s of live objects.

Files: `options.dfy` (results that may be NULL), `chunk.dfy` (octets, zero stripping), `primitives.dfy` (the
backend), `verify.dfy` (scheme dispatch and verification),
`fingerprint.dfy` (fingerprints and cache), `public_key.dfy` (the object
and its life cycle), `builder.dfy` (the builder).

## Model

| member | source | states |
|---|---|---|
| Chunk.StripLeadingZeros | src/libstrongswan/plugins/openssl/openssl_ec_public_key.c:115-120 | The result is a suffix of the signature, and every octet in front of it is 0x00. If the result is non-empty, its first octet is not 0x00. |
| Chunk.StripRemovesExactlyLeadingZeros | src/libstrongswan/plugins/openssl/openssl_ec_public_key.c:115-120 | If s starts with exactly n zero octets, stripping yields s[n..] and shortens s by exactly n. So the result is the longest suffix that does not start with 0x00. |
| Chunk.StripAllZero | src/libstrongswan/plugins/openssl/openssl_ec_public_key.c:116 | An all-zero signature, including the empty one, strips to the empty chunk. |
| Chunk.StripIdempotent | src/libstrongswan/plugins/openssl/openssl_ec_public_key.c:115-120 | Stripping twice gives the same result as stripping once. |
| Chunk.StripZeroPadding | src/libstrongswan/plugins/openssl/openssl_ec_public_key.c:115-120 | Putting any number of 0x00 octets in front does not change the stripped result (proved by induction). |
| EcVerify.SchemeRule | src/libstrongswan/plugins/openssl/openssl_ec_public_key.c:159-175 | The scheme table. Exactly the five ECDSA schemes have a rule. Only SIGN_ECDSA_WITH_SHA1 uses the DER format, and only SIGN_ECDSA_WITH_NULL skips hashing. |
| EcVerify.SchemeRuleInjective | src/libstrongswan/plugins/openssl/openssl_ec_public_key.c:159-175 | No two supported schemes share a (digest, format) rule, so the dispatch is exclusive. |
| EcVerify.VerifySignature | src/libstrongswan/plugins/openssl/openssl_ec_public_key.c:52-101 | Under NID_undef nothing is hashed and the data itself goes to ECDSA. A hash failure returns false, and its only call is the hash. A signature that does not split returns false and ECDSA is never called. No DER decoding happens. Once the digest, ECDSA_SIG_new and the split all succeed, the result is ECDSA_do_verify's verdict (== 1) on that digest (the data itself under NID_undef) and the split (r, s). |
| EcVerify.VerifyDerSignature | src/libstrongswan/plugins/openssl/openssl_ec_public_key.c:122-142 | What follows the stripping: the DER decoder is called first, and a decoding failure returns false without hashing. A SHA-1 failure returns false without calling ECDSA. Otherwise the result is ECDSA's verdict (== 1) on SHA-1(data) and the decoded signature. Only SHA-1 and the DER format are ever used. |
| EcVerify.VerifyDefaultSignature | src/libstrongswan/plugins/openssl/openssl_ec_public_key.c:107-143 | The first call is the DER decoder, on the zero-stripped signature. A decoding failure returns false without hashing. A SHA-1 failure returns false without calling ECDSA. Otherwise the result is ECDSA's verdict (== 1) on SHA-1(data) and the decoded signature. |
| EcVerify.Verify | src/libstrongswan/plugins/openssl/openssl_ec_public_key.c:156-176 | Any scheme outside the table returns false and calls nothing. The only digest used is the one the table names for the scheme, and the signature is decoded only in that scheme's format. The result is true exactly when ECDSA returned 1. |
| EcVerify.VerifyFollowsSchemeRule | src/libstrongswan/plugins/openssl/openssl_ec_public_key.c:156-176 | For every scheme, in both directions, verify accepts exactly when the scheme table accepts. The table accepts when its digest exists, its format decodes the signature and ECDSA returns 1. |
| EcVerify.DefaultSchemeToleratesZeroPadding | src/libstrongswan/plugins/openssl/openssl_ec_public_key.c:163-164 | For SIGN_ECDSA_WITH_SHA1, leading 0x00 padding on the signature changes neither the verdict nor the backend calls. |
| Fingerprint.EcFingerprint | src/libstrongswan/plugins/openssl/openssl_ec_public_key.c:199-235 | A cache hit returns the cached bytes, hashes nothing and leaves the cache alone. On a miss, only the two key-id types are computed: SHA-1 of the point encoding or of the SubjectPublicKeyInfo, hashed once and stored under (type, EC_KEY) alone. An unsupported type, or a missing SHA-1 hasher, returns false and caches nothing. |
| Fingerprint.FingerprintIsCached | src/libstrongswan/plugins/openssl/openssl_ec_public_key.c:205-208 | After a successful call, the same request returns the same bytes from the cache without hashing. |
| Fingerprint.EncodingBuffersAsWritten | src/libstrongswan/plugins/openssl/openssl_ec_public_key.c:211-234 | The encoding buffer as the code handles it. One is allocated exactly on a cache miss for one of the two key-id types, and it is freed exactly when no SHA-1 hasher exists, that is, only when nothing is hashed. |
| Fingerprint.ComputedFingerprintLeaksAsWritten | src/libstrongswan/plugins/openssl/openssl_ec_public_key.c:231-234 | Every call that computes a fingerprint allocates an encoding buffer and frees none. |
| Fingerprint.EncodingBuffers | src/libstrongswan/plugins/openssl/openssl_ec_public_key.c:211-234 | Corrected buffer use. A buffer is allocated exactly on a miss for a supported type, and every buffer allocated is freed. |
| Fingerprint.ClearCache | src/libstrongswan/plugins/openssl/openssl_ec_public_key.c:286 | Clearing one EC_KEY's entries removes exactly the entries with that owner and keeps all others with their values. |
| EcPublicKey.GetType | src/libstrongswan/plugins/openssl/openssl_ec_public_key.c:148-151 | The key type is always KEY_ECDSA. |
| EcPublicKey.Encrypt | src/libstrongswan/plugins/openssl/openssl_ec_public_key.c:181-186 | Encryption always fails and leaves the output chunk as it was. |
| EcPublicKey.GetEncoding | src/libstrongswan/plugins/openssl/openssl_ec_public_key.c:249-266 | Succeeds exactly for KEY_PUB_SPKI_ASN1_DER and then returns the DER SubjectPublicKeyInfo. Every other type fails. |
| EcPublicKey.InfoFingerprintHashesEncoding | src/libstrongswan/plugins/openssl/openssl_ec_public_key.c:216-219 | On a miss, the SubjectPublicKeyInfo fingerprint is SHA-1 of what get_encoding returns for KEY_PUB_SPKI_ASN1_DER. |
| EcPublicKey.GetFingerprint | src/libstrongswan/plugins/openssl/openssl_ec_public_key.c:240-244 | It answers what openssl_ec_fingerprint answers for the object's EC_KEY. A cache hit returns the cached bytes without hashing and changes nothing. A miss for a key-id type with SHA-1 present returns SHA-1 of that type's encoding after one hash. A failure leaves the heap and cache as they were. The objects are never changed, and the cache grows only under (type, this EC_KEY). It uses openssl_ec_fingerprint as written: at most one encoding buffer is allocated, and a fingerprint actually computed leaves its buffer unfreed. |
| EcPublicKey.GetFingerprintKeepsValid | src/libstrongswan/plugins/openssl/openssl_ec_public_key.c:233 | Storing a fingerprint keeps the heap invariant: the entry belongs to a live EC_KEY. |
| EcPublicKey.CreateEmpty | src/libstrongswan/plugins/openssl/openssl_ec_public_key.c:296-314 | A new object at a free address has no EC_KEY and one reference. Nothing else changes. |
| EcPublicKey.CreateEmptyKeepsValid | src/libstrongswan/plugins/openssl/openssl_ec_public_key.c:310-311 | Creating an empty object keeps the heap invariant. |
| EcPublicKey.GetRef | src/libstrongswan/plugins/openssl/openssl_ec_public_key.c:271-275 | Returns the same object, with its count one higher. Every other object and the cache are unchanged. |
| EcPublicKey.GetRefKeepsValid | src/libstrongswan/plugins/openssl/openssl_ec_public_key.c:273 | get_ref keeps the heap invariant. |
| EcPublicKey.Destroy | src/libstrongswan/plugins/openssl/openssl_ec_public_key.c:280-291 | Decrements the count. The object stays live exactly when the count was above one. Only the last reference frees it and removes exactly its EC_KEY's cache entries. Without an EC_KEY the cache is untouched. Other objects are unchanged. |
| EcPublicKey.DestroyKeepsValid | src/libstrongswan/plugins/openssl/openssl_ec_public_key.c:282-289 | destroy keeps the heap invariant: no cache entry is left for a freed EC_KEY. |
| EcPublicKey.Load | src/libstrongswan/plugins/openssl/openssl_ec_public_key.c:319-332 | A blob that does not decode leaves the heap exactly as it was and yields NULL, so nothing stays live. A blob that decodes yields a new object with that key and one reference. The cache is untouched. |
| EcPublicKey.LoadKeepsValid | src/libstrongswan/plugins/openssl/openssl_ec_public_key.c:319-332 | load keeps the heap invariant when the new EC_KEY's address is free. |
| EcPublicKey.AcquireN | src/libstrongswan/plugins/openssl/openssl_ec_public_key.c:271-275 | n calls of get_ref raise the count by n and change nothing else. |
| EcPublicKey.ReleaseN | src/libstrongswan/plugins/openssl/openssl_ec_public_key.c:280-291 | With more references than calls, n calls of destroy leave the object live with n fewer references and the cache untouched. Dropping exactly all references frees it. |
| EcPublicKey.ReleaseAfterAcquire | src/libstrongswan/plugins/openssl/openssl_ec_public_key.c:271-291 | After n get_ref calls, n + k destroy calls do what k calls would have done before (proved by induction). |
| EcPublicKey.ReleaseAfterAcquireStep | src/libstrongswan/plugins/openssl/openssl_ec_public_key.c:271-291 | The inductive step: the first of n + k destroy calls undoes the n-th get_ref, leaving n - 1 get_ref calls and n + k - 1 destroy calls. |
| EcPublicKey.DestroyUndoesGetRef | src/libstrongswan/plugins/openssl/openssl_ec_public_key.c:271-291 | destroy right after get_ref restores the heap exactly. |
| EcPublicKey.BalancedReferences | src/libstrongswan/plugins/openssl/openssl_ec_public_key.c:271-291 | For a key with one reference, n get_ref calls are undone by exactly n destroy calls. One more destroy frees the object and leaves no cache entry for its EC_KEY. |
| EcPublicKey.NoStaleFingerprint | src/libstrongswan/plugins/openssl/openssl_ec_public_key.c:284-288 | Once the last reference is dropped, no live object owns the old EC_KEY address. A new key loaded at that address gets its fingerprint computed from its own material, with one SHA-1 run, and never the old digest. |
| KeyBuilder.NewBuilder | src/libstrongswan/plugins/openssl/openssl_ec_public_key.c:389-405 | A builder exists exactly for KEY_ECDSA, and it starts without a key. |
| KeyBuilder.Add | src/libstrongswan/plugins/openssl/openssl_ec_public_key.c:360-384 | A DER blob added while empty is loaded, and the builder is not cancelled even when loading fails. A successful load adds only the new object and leaves every other object and the cache unchanged. Any other part while empty cancels and changes nothing. Any part while a key is held cancels and is exactly one destroy of that key: its count drops by one, or on the last reference it is freed with its cache entries. A cancelled builder ignores every part. The builder's reference stays valid throughout. |
| KeyBuilder.Build | src/libstrongswan/plugins/openssl/openssl_ec_public_key.c:349-355 | Returns exactly the key the builder holds, which may be none. A cancelled builder yields none. |
| KeyBuilder.AddKeepsValid | src/libstrongswan/plugins/openssl/openssl_ec_public_key.c:360-384 | add keeps the heap invariant. |
| KeyBuilder.OneBlobYieldsKey | src/libstrongswan/plugins/openssl/openssl_ec_public_key.c:368-373 | One decodable blob builds a live key with a single reference and the decoded material. |
| KeyBuilder.FailedBlobDoesNotCancel | src/libstrongswan/plugins/openssl/openssl_ec_public_key.c:368-373 | A blob that does not decode leaves the heap and the empty builder as they were. A later decodable blob still builds a key. |
| KeyBuilder.SecondPartLeavesNothing | src/libstrongswan/plugins/openssl/openssl_ec_public_key.c:379-383 | A second part after a key was loaded destroys that key. The heap, cache included, is exactly what it was before, and build yields no key. |
| KeyBuilder.BuildVerifyFingerprint | src/libstrongswan/plugins/openssl/openssl_ec_public_key.c:156-244 | End to end: the key the builder returns, with the material it decoded, rejects every scheme outside the table. Asking for its fingerprint twice gives the same bytes for a single SHA-1 run. |

## Left out

- `tkm_diffie_hellman.h` only declares a wrapper struct and a constructor
  whose work happens in an external trusted key manager. There is no logic
  to model.
- `equals` is `public_key_equals`, which is defined elsewhere and is not
  part of this model.
- EcPublicKey.GetKeysize has no contract. It returns the backend's
  field-element width unchanged.
- OpenSSL's internals (DER and point codecs, digests, the ECDSA check,
  `openssl_bn_split`) are arbitrary backend functions. Nothing is assumed
  about them.
- The strongSwan hasher is fixed for a given backend: either SHA-1 is
  available for every call or for none.
- Memory release (`ECDSA_SIG_free`, `chunk_free`, `EC_KEY_free`, `free`) is
  modelled only as liveness in the heap. The one exception is the
  fingerprint's encoding buffer (see Findings).
- Atomicity of `ref_get`/`ref_put` and locking of the shared cache are
  concurrency and are left out. Operations are sequential.
- EcPublicKey.GetRef: the count is an unbounded `nat`, so wrap-around of the
  unsigned counter is not modelled.
- EcPublicKey.Destroy: calling destroy on a freed object, or with a count of
  zero, is undefined in the code. The model requires a live object with a
  positive count.
- `DBG1` diagnostics are logging only and are left out.
- KeyBuilder.Add: `builder_cancel` is defined in `builder.c`, which is not
  part of this model. Cancelling is modelled as a terminal state: later
  parts are ignored and build yields no key.
- KeyBuilder.Add: a blob that fails to load does not cancel the builder,
  which stays empty and accepts a later blob (lines 368-373). One might
  expect a failed load to cancel; the model follows the code.
- The cache is shared with the EC private key, which also calls
  `openssl_ec_fingerprint`. Only public-key objects are modelled, so
  `Valid` requires every cache entry to belong to a live public key.

## Findings

| source | as written | input that shows it | evidently intended | confidence | as-written member | corrected member |
|---|---|---|---|---|---|---|
| src/libstrongswan/plugins/openssl/openssl_ec_public_key.c:211-234 | The encoding buffer `key` from `chunk_alloc` is freed only when no SHA-1 hasher exists (line 228). After `allocate_hash` (lines 231-234) the function returns without freeing it. | Any cache miss for KEY_ID_PUBKEY_SHA1 or KEY_ID_PUBKEY_INFO_SHA1 with a SHA-1 hasher present: one buffer is allocated and none is freed. | Free the encoding after hashing, so that every allocated buffer is released on every path. | high (not executed) | Fingerprint.EncodingBuffersAsWritten, Fingerprint.ComputedFingerprintLeaksAsWritten | Fingerprint.EncodingBuffers |
