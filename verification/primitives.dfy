/**
  The collaborators the EC public key calls but does not implement: OpenSSL's
  decoders, encoders, digests and ECDSA verification, and strongSwan's SHA-1
  hasher factory. Their behaviour is not visible here, so a `Backend` is a
  record of arbitrary functions, and every operation of the key takes one as
  a parameter; whatever is proved holds for every backend.
 */
module Primitives {
  import opened Options
  import opened Chunk

  /** The OpenSSL digest identifiers the key passes around; NidUndef is
      NID_undef, meaning the data is already a digest. */
  datatype Nid = NidUndef | NidSha1 | NidSha256 | NidSha384 | NidSha512

  /** A decoded ECDSA_SIG: the integers r and s. */
  datatype EcdsaSig = EcdsaSig(r: nat, s: nat)

  /** What an EC_KEY holds once decoded: its curve and its public point. */
  datatype EcMaterial = EcMaterial(curve: nat, point: Bytes)

  datatype Backend = Backend(
    /** openssl_hash_chunk: the digest of the data, or None on failure. */
    hashChunk: (Nid, Bytes) -> Option<Bytes>,
    /** whether ECDSA_SIG_new obtains a signature structure. */
    sigNewSucceeds: bool,
    /** openssl_bn_split: r || s of equal width into (r, s), or None. */
    bnSplit: Bytes -> Option<EcdsaSig>,
    /** d2i_ECDSA_SIG: a DER ECDSA-Sig-Value into (r, s), or None. */
    d2iEcdsaSig: Bytes -> Option<EcdsaSig>,
    /** ECDSA_do_verify: 1 for a valid signature, 0 for an invalid one, -1 on error. */
    doVerify: (Bytes, EcdsaSig, EcMaterial) -> int,
    /** EC_FIELD_ELEMENT_LEN of the key's group, in octets. */
    fieldElementLen: EcMaterial -> nat,
    /** d2i_EC_PUBKEY: a DER SubjectPublicKeyInfo into key material, or None. */
    d2iEcPubkey: Bytes -> Option<EcMaterial>,
    /** i2d_EC_PUBKEY: the DER SubjectPublicKeyInfo of the key. */
    i2dEcPubkey: EcMaterial -> Bytes,
    /** i2o_ECPublicKey: the octet encoding of the public point. */
    i2oEcPublicKey: EcMaterial -> Bytes,
    /** create_hasher(HASH_SHA1): the SHA-1 function, or None when no
        plugin provides SHA-1. */
    sha1Hasher: Option<Bytes -> Bytes>
  )
}
