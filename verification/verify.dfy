/**
  Signature verification of the OpenSSL EC public key: the dispatch on the
  signature scheme, verification of a fixed-width r || s signature over a
  (possibly hashed) message, and verification of the default SHA-1 scheme
  whose signature is a DER ECDSA-Sig-Value that may carry zero padding.

  Each result records the primitives called, in order, so that the order of
  the checks (what is tried before what, what is never tried) is part of
  what the contracts state.
 */
module EcVerify {
  import opened Options
  import opened Chunk
  import opened Primitives

  /** The values of signature_scheme_t the key tells apart; every other
      value of that enumeration is OtherScheme. */
  datatype SignatureScheme =
    | EcdsaWithNull   // SIGN_ECDSA_WITH_NULL: the data is already the digest
    | EcdsaWithSha1   // SIGN_ECDSA_WITH_SHA1
    | Ecdsa256        // SIGN_ECDSA_256
    | Ecdsa384        // SIGN_ECDSA_384
    | Ecdsa521        // SIGN_ECDSA_521
    | OtherScheme(code: nat)

  /** How the signature octets become (r, s). */
  datatype SigFormat =
    | ConcatenatedRS  // r || s of equal width, section 7 of RFC 4754
    | DerSigValue     // DER ECDSA-Sig-Value, section 2.2.3 of RFC 3279, after leading 0x00 octets are dropped

  /** What a supported scheme asks for: the digest and the signature format. */
  datatype Rule = Rule(nid: Nid, format: SigFormat)

  /** One call into the backend, with the arguments that matter. */
  datatype Call =
    | HashCall(nid: Nid, input: Bytes)
    | SigNewCall
    | SplitCall(input: Bytes)
    | DerDecodeCall(input: Bytes)
    | VerifyCall(digest: Bytes, sig: EcdsaSig)

  /** The verdict, and the backend calls made to reach it. */
  datatype Outcome = Outcome(valid: bool, calls: seq<Call>)

  /** The scheme table: which digest and which signature format each
      supported scheme uses; None for the schemes the key rejects. */
  function SchemeRule(scheme: SignatureScheme): (r: Option<Rule>)
    ensures r.None? <==> scheme.OtherScheme?
    ensures r.Some? && r.value.format == DerSigValue <==> scheme == EcdsaWithSha1
    ensures r.Some? && r.value.nid == NidUndef <==> scheme == EcdsaWithNull
  {
    match scheme
    case EcdsaWithNull => Some(Rule(NidUndef, ConcatenatedRS))
    case EcdsaWithSha1 => Some(Rule(NidSha1, DerSigValue))
    case Ecdsa256 => Some(Rule(NidSha256, ConcatenatedRS))
    case Ecdsa384 => Some(Rule(NidSha384, ConcatenatedRS))
    case Ecdsa521 => Some(Rule(NidSha512, ConcatenatedRS))
    case OtherScheme(_) => None
  }

  /** No two supported schemes share a rule. */
  lemma SchemeRuleInjective(a: SignatureScheme, b: SignatureScheme)
    requires SchemeRule(a).Some? && SchemeRule(a) == SchemeRule(b)
    ensures a == b
  {
  }

  /** The digest handed to ECDSA: the data itself under NID_undef, its
      hash otherwise (None when hashing fails). */
  function DigestOf(be: Backend, nid: Nid, data: Bytes): Option<Bytes>
  {
    if nid == NidUndef then Some(data) else be.hashChunk(nid, data)
  }

  /** The signature decoded as a format demands. */
  function DecodeSig(be: Backend, format: SigFormat, signature: Bytes): Option<EcdsaSig>
  {
    match format
    case ConcatenatedRS => be.bnSplit(signature)
    case DerSigValue => be.d2iEcdsaSig(StripLeadingZeros(signature))
  }

  /** Some call to ECDSA_do_verify returned exactly 1. */
  ghost predicate PrimitiveAccepted(be: Backend, ec: EcMaterial, calls: seq<Call>)
  {
    exists c :: c in calls && c.VerifyCall? && be.doVerify(c.digest, c.sig, ec) == 1
  }

  /** verify_signature: hash the data unless nid is NidUndef, split the
      signature into r and s, and ask ECDSA_do_verify. */
  function VerifySignature(be: Backend, ec: EcMaterial, nid: Nid, data: Bytes, signature: Bytes): (r: Outcome)
    // under NID_undef nothing is hashed and the data itself is the digest
    ensures nid == NidUndef ==>
      forall c :: c in r.calls ==> !c.HashCall? && (c.VerifyCall? ==> c.digest == data)
    // a hashing failure ends the call before the signature is looked at
    ensures nid != NidUndef && be.hashChunk(nid, data).None? ==>
      r == Outcome(false, [HashCall(nid, data)])
    // a signature that does not split is rejected without asking ECDSA
    ensures be.bnSplit(signature).None? ==>
      !r.valid && forall c :: c in r.calls ==> !c.VerifyCall?
    // only this digest and the split format are ever used; no DER parsing
    ensures forall c :: c in r.calls ==>
      && !c.DerDecodeCall?
      && (c.HashCall? ==> c.nid == nid && c.input == data)
      && (c.SplitCall? ==> c.input == signature)
    // the verdict is exactly "ECDSA_do_verify returned 1"
    ensures r.valid <==> PrimitiveAccepted(be, ec, r.calls)
    ensures r.valid ==> DigestOf(be, nid, data).Some? && be.sigNewSucceeds && be.bnSplit(signature).Some?
    // once the digest, the signature structure and the split are all there,
    // the verdict is ECDSA's on exactly that digest and that (r, s)
    ensures DigestOf(be, nid, data).Some? && be.sigNewSucceeds && be.bnSplit(signature).Some? ==>
      r.valid == (be.doVerify(DigestOf(be, nid, data).value, be.bnSplit(signature).value, ec) == 1)
  {
    var hashing := if nid == NidUndef then [] else [HashCall(nid, data)];
    var digest := DigestOf(be, nid, data);
    if digest.None? then
      Outcome(false, hashing)
    else if !be.sigNewSucceeds then
      Outcome(false, hashing + [SigNewCall])
    else
      match be.bnSplit(signature)
      case None =>
        Outcome(false, hashing + [SigNewCall, SplitCall(signature)])
      case Some(sig) =>
        var calls := hashing + [SigNewCall, SplitCall(signature), VerifyCall(digest.value, sig)];
        assert calls[|calls| - 1] == VerifyCall(digest.value, sig);
        Outcome(be.doVerify(digest.value, sig, ec) == 1, calls)
  }

  /** The part of verify_default_signature after the zero padding is gone:
      DER-decode the signature, hash the data with SHA-1 and ask
      ECDSA_do_verify. */
  function VerifyDerSignature(be: Backend, ec: EcMaterial, data: Bytes, der: Bytes): (r: Outcome)
    // the DER decoder is called first
    ensures |r.calls| >= 1 && r.calls[0] == DerDecodeCall(der)
    // a signature that does not decode is rejected without hashing
    ensures be.d2iEcdsaSig(der).None? ==> r == Outcome(false, [DerDecodeCall(der)])
    // a SHA-1 failure is a rejection
    ensures be.hashChunk(NidSha1, data).None? ==>
      !r.valid && forall c :: c in r.calls ==> !c.VerifyCall?
    // otherwise the verdict is ECDSA's on SHA-1(data) and the decoded signature
    ensures be.d2iEcdsaSig(der).Some? && be.hashChunk(NidSha1, data).Some? ==>
      r.valid == (be.doVerify(be.hashChunk(NidSha1, data).value, be.d2iEcdsaSig(der).value, ec) == 1)
    // only SHA-1 and the DER format are ever used
    ensures forall c :: c in r.calls ==>
      && !c.SplitCall? && !c.SigNewCall?
      && (c.HashCall? ==> c.nid == NidSha1 && c.input == data)
    ensures r.valid <==> PrimitiveAccepted(be, ec, r.calls)
  {
    match be.d2iEcdsaSig(der)
    case None =>
      Outcome(false, [DerDecodeCall(der)])
    case Some(sig) =>
      match be.hashChunk(NidSha1, data)
      case None =>
        Outcome(false, [DerDecodeCall(der), HashCall(NidSha1, data)])
      case Some(digest) =>
        var calls := [DerDecodeCall(der), HashCall(NidSha1, data), VerifyCall(digest, sig)];
        assert calls[2] == VerifyCall(digest, sig);
        Outcome(be.doVerify(digest, sig, ec) == 1, calls)
  }

  /** verify_default_signature: drop leading 0x00 octets from the
      signature, then verify what remains as a DER ECDSA-Sig-Value over
      SHA-1(data). */
  function VerifyDefaultSignature(be: Backend, ec: EcMaterial, data: Bytes, signature: Bytes): (r: Outcome)
    // the DER decoder is called first, on the signature without its zero padding
    ensures |r.calls| >= 1 && r.calls[0] == DerDecodeCall(StripLeadingZeros(signature))
    // a signature that does not decode is rejected without hashing
    ensures be.d2iEcdsaSig(StripLeadingZeros(signature)).None? ==>
      r == Outcome(false, [DerDecodeCall(StripLeadingZeros(signature))])
    // a SHA-1 failure is a rejection
    ensures be.hashChunk(NidSha1, data).None? ==>
      !r.valid && forall c :: c in r.calls ==> !c.VerifyCall?
    // otherwise the verdict is ECDSA's on SHA-1(data) and the decoded signature
    ensures be.d2iEcdsaSig(StripLeadingZeros(signature)).Some? && be.hashChunk(NidSha1, data).Some? ==>
      r.valid == (be.doVerify(be.hashChunk(NidSha1, data).value,
                              be.d2iEcdsaSig(StripLeadingZeros(signature)).value, ec) == 1)
    // only SHA-1 and the DER format are ever used
    ensures forall c :: c in r.calls ==>
      && !c.SplitCall? && !c.SigNewCall?
      && (c.HashCall? ==> c.nid == NidSha1 && c.input == data)
    ensures r.valid <==> PrimitiveAccepted(be, ec, r.calls)
  {
    VerifyDerSignature(be, ec, data, StripLeadingZeros(signature))
  }

  /** verify: dispatch on the scheme; every scheme outside the table is
      rejected without touching the backend. */
  function Verify(be: Backend, ec: EcMaterial, scheme: SignatureScheme, data: Bytes, signature: Bytes): (r: Outcome)
    ensures SchemeRule(scheme).None? ==> r == Outcome(false, [])
    ensures r.valid <==> PrimitiveAccepted(be, ec, r.calls)
    // the digest used is the one the table names for the scheme
    ensures forall c :: c in r.calls && c.HashCall? ==>
      SchemeRule(scheme).Some? && c.nid == SchemeRule(scheme).value.nid && c.nid != NidUndef
    // the signature is decoded only in the format the table names for the scheme
    ensures forall c :: c in r.calls && c.DerDecodeCall? ==>
      SchemeRule(scheme).Some? && SchemeRule(scheme).value.format == DerSigValue
    ensures forall c :: c in r.calls && c.SplitCall? ==>
      SchemeRule(scheme).Some? && SchemeRule(scheme).value.format == ConcatenatedRS
  {
    match scheme
    case EcdsaWithNull => VerifySignature(be, ec, NidUndef, data, signature)
    case EcdsaWithSha1 => VerifyDefaultSignature(be, ec, data, signature)
    case Ecdsa256 => VerifySignature(be, ec, NidSha256, data, signature)
    case Ecdsa384 => VerifySignature(be, ec, NidSha384, data, signature)
    case Ecdsa521 => VerifySignature(be, ec, NidSha512, data, signature)
    case OtherScheme(_) => Outcome(false, [])
  }

  /** The declarative reading of the scheme table: a signature is accepted
      when the scheme is in the table, the data yields the digest the table
      names, the signature decodes in the format the table names, and
      ECDSA returns 1 on them. */
  ghost predicate Accepts(be: Backend, ec: EcMaterial, scheme: SignatureScheme, data: Bytes, signature: Bytes)
  {
    && SchemeRule(scheme).Some?
    && var rule := SchemeRule(scheme).value;
    && DigestOf(be, rule.nid, data).Some?
    && DecodeSig(be, rule.format, signature).Some?
    && (rule.format == ConcatenatedRS ==> be.sigNewSucceeds)
    && be.doVerify(DigestOf(be, rule.nid, data).value, DecodeSig(be, rule.format, signature).value, ec) == 1
  }

  /** The dispatch in Verify agrees with the scheme table for every scheme,
      in both directions. */
  lemma VerifyFollowsSchemeRule(be: Backend, ec: EcMaterial, scheme: SignatureScheme, data: Bytes, signature: Bytes)
    ensures Verify(be, ec, scheme, data, signature).valid <==> Accepts(be, ec, scheme, data, signature)
  {
  }

  /** For the default scheme, zero octets in front of the signature change
      nothing at all: same verdict, same backend calls. */
  lemma {:induction false} DefaultSchemeToleratesZeroPadding(
    be: Backend, ec: EcMaterial, data: Bytes, signature: Bytes, n: nat)
    ensures Verify(be, ec, EcdsaWithSha1, data, Zeros(n) + signature)
         == Verify(be, ec, EcdsaWithSha1, data, signature)
  {
    var padded := Zeros(n) + signature;
    StripZeroPadding(n, signature);
    assert Verify(be, ec, EcdsaWithSha1, data, padded) == VerifyDefaultSignature(be, ec, data, padded);
    assert VerifyDefaultSignature(be, ec, data, padded) == VerifyDefaultSignature(be, ec, data, signature);
  }
}
