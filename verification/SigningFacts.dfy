/** What the signing messages say when they are accepted, field by field, and when a payload is sent. */
module SigningFacts {
  import opened Outcomes
  import opened Texts
  import opened Json
  import opened Canonical
  import opened InertJson
  import opened SigningChain
  import SigningLimits

  predicate Says(v: Json, key: Text, t: Text) { Field(v, key) == Some(String(t)) }

  /** A version-1 snapshot payload of this signer with exactly the published fields. */
  predicate IsUnsignedSnapshot(n: Names, p: Json, keyId: Text)
  {
    && p.Object? && |p.members| == 11 && (forall key :: key in PayloadKeys(n) ==> Field(p, key).Some?)
    && Field(p, n.schemaVersion) == Some(Integer(1)) && Says(p, n.purpose, n.authorization)
    && Says(p, n.algorithm, n.ed25519) && Says(p, n.signerKeyId, keyId)
  }

  lemma {:induction false} PayloadExactly(n: Names, p: Json, keyId: Text)
    ensures IsPayload(n, p, keyId) <==> IsUnsignedSnapshot(n, p, keyId)
  {
    var keys := PayloadKeys(n);
    if IsUnsignedSnapshot(n, p, keyId) {
      forall i | 0 <= i < |keys| ensures Find(p.members, keys[i]).Some? { assert keys[i] in keys; }
    }
  }

  /** Bounded: at most 2048 nodes, sixteen deep, of at most 64 members or 256 items each. */
  lemma {:induction false} BoundedExactly(v: Json)
    ensures Inert(v, 0, 0).Some? <==> Shallow(v, 0) && PayloadWalk.Nodes(v) <= 2_048
  {
    InertExact(v, 0, 0);
  }

  // ----- what custody is handed -----

  /**
   * An envelope for this signer that binds the payload's canonical text to its hash, and all of it to
   * the request's.
   */
  ghost predicate IsRequestEnvelope(n: Names, rules: Rules, keyId: Text, v: Json, payload: Json, t: Text, c: Custody)
  {
    && Messages.Exact(v, EnvelopeKeys(n)) && Shallow(v, 0) && PayloadWalk.Nodes(v) <= 2_048
    && Field(v, n.protocolVersion) == Some(Integer(1)) && Says(v, n.purpose, n.requestPurpose)
    && Says(v, n.runtimeConnection, n.notConfigured) && Says(v, n.signerKeyId, keyId)
    && Says(v, n.payloadHash, c.hash) && Says(v, n.requestHash, c.requestHash) && Field(v, n.payload) == Some(payload)
    && IsUnsignedSnapshot(n, payload, keyId) && IsDigest(c.hash) && IsDigest(c.requestHash)
    && CanonicalJson(rules.sensitive, payload) == Some(t) && c.hash == rules.sha256(t) && c.bytes == Utf8(t)
    && HashOf(rules, Binding(n, keyId, c.hash, payload)) == Some(c.requestHash)
  }

  lemma {:induction false} EnvelopeExactly(n: Names, rules: Rules, keyId: Text, v: Json, c: Custody)
    requires Inert(v, 0, 0).Some?
    ensures ReadEnvelope(n, rules, keyId, v) == Some(c) <==>
            exists payload, t :: IsRequestEnvelope(n, rules, keyId, v, payload, t, c)
  {
    BoundedExactly(v);
    if Field(v, n.payload).Some? {
      var payload := Field(v, n.payload).value;
      PayloadExactly(n, payload, keyId);
      if ReadEnvelope(n, rules, keyId, v) == Some(c) {
        assert IsRequestEnvelope(n, rules, keyId, v, payload, CanonicalJson(rules.sensitive, payload).value, c);
      }
    }
  }

  const BYTE_ORDER_MARK: Bytes := [0xEF, 0xBB, 0xBF]

  /** The bytes are the canonical text of this value, with or without a byte order mark. */
  predicate Spells(rules: Rules, b: Bytes, v: Json, whole: Text)
  {
    && (if BYTE_ORDER_MARK <= b then FromUtf8(b[3..]) == Some(whole) else FromUtf8(b) == Some(whole))
    && Parse(whole) == Some(v) && CanonicalJson(rules.sensitive, v) == Some(whole)
  }

  lemma {:induction false} SpellsMeans(rules: Rules, b: Bytes, v: Json, whole: Text)
    ensures Spells(rules, b, v, whole) <==>
            DecodeText(b) == Some(whole) && Parse(whole) == Some(v) && CanonicalJson(rules.sensitive, v) == Some(whole)
  {
  }

  lemma {:induction false} HandlerOf(n: Names, rules: Rules, keyId: Text, b: Bytes, v: Json, whole: Text, c: Custody)
    requires Spells(rules, b, v, whole) && 2 <= |b| <= 32_768
    ensures HandlerReads(n, rules, keyId, b) == Some(c) <==>
            Inert(v, 0, 0).Some? && ReadEnvelope(n, rules, keyId, v) == Some(c)
  {
    SpellsMeans(rules, b, v, whole);
  }

  lemma {:induction false} HandlerSpells(n: Names, rules: Rules, keyId: Text, b: Bytes)
    requires HandlerReads(n, rules, keyId, b).Some?
    ensures 2 <= |b| <= 32_768 && DecodeText(b).Some? && Parse(DecodeText(b).value).Some?
    ensures Spells(rules, b, Parse(DecodeText(b).value).value, DecodeText(b).value)
  {
    SpellsMeans(rules, b, Parse(DecodeText(b).value).value, DecodeText(b).value);
  }

  /**
   * Whatever bytes arrive, the handler hands custody these exactly when they spell, in 2 to 32768
   * bytes, a bounded envelope of this signer whose payload and request hashes are right.
   */
  lemma {:induction false} CustodyExactly(n: Names, rules: Rules, keyId: Text, b: Bytes, c: Custody)
    ensures HandlerReads(n, rules, keyId, b) == Some(c) <==>
            && 2 <= |b| <= 32_768
            && exists v, whole, payload, t ::
                Spells(rules, b, v, whole) &&
                IsRequestEnvelope(n, rules, keyId, v, payload, t, c)
  {
    if HandlerReads(n, rules, keyId, b) == Some(c) {
      HandlerSpells(n, rules, keyId, b);
      var whole := DecodeText(b).value;
      var v := Parse(whole).value;
      HandlerOf(n, rules, keyId, b, v, whole, c);
      EnvelopeExactly(n, rules, keyId, v, c);
    }
    if 2 <= |b| <= 32_768 &&
       exists v, whole, payload, t :: Spells(rules, b, v, whole) &&
         IsRequestEnvelope(n, rules, keyId, v, payload, t, c) {
      var v, whole, payload, t :| Spells(rules, b, v, whole) && IsRequestEnvelope(n, rules, keyId, v, payload, t, c);
      BoundedExactly(v);
      EnvelopeExactly(n, rules, keyId, v, c);
      HandlerOf(n, rules, keyId, b, v, whole, c);
    }
  }

  // ----- what the signer sends -----

  /**
   * Of the controller's request for a payload, the signer sends an envelope exactly when the payload
   * is an unsigned snapshot of this signer under its right hash, bounded with the request around it,
   * and the envelope has a canonical text of at most 32768 bytes.
   */
  lemma {:induction false} SendsExactly(
    n: Names, rules: Rules, keyId: Text, hash: Text, payload: Json, requestHash: Text)
    requires Distinct(n) && HashOf(rules, Binding(n, keyId, hash, payload)) == Some(requestHash)
    ensures SignerSends(n, rules, keyId, SigningRequest(n, keyId, hash, payload)).Some? <==>
            && IsUnsignedSnapshot(n, payload, keyId) && IsDigest(hash) && HashOf(rules, payload) == Some(hash)
            && Shallow(payload, 1) && PayloadWalk.Nodes(payload) + 5 <= 2_048
            && CanonicalJson(rules.sensitive, Envelope(n, keyId, hash, payload, requestHash)).Some?
            && |Utf8(CanonicalJson(rules.sensitive, Envelope(n, keyId, hash, payload, requestHash)).value)| <= 32_768
  {
    PayloadExactly(n, payload, keyId);
    RequestFields(n, keyId, hash, payload);
    RequestInert(n, keyId, hash, payload);
    if IsPayload(n, payload, keyId) && IsDigest(hash) && HashOf(rules, payload) == Some(hash) && Shallow(payload, 1) &&
      PayloadWalk.Nodes(payload) + 5 <= 2_048 {
      SigningLimits.RequestIsRead(n, rules, keyId, hash, payload);
    }
  }

  // ----- what the signer takes -----

  /** An answer to this very request, with a signature of 64 bytes. */
  ghost predicate IsAnswer(n: Names, rules: Rules, keyId: Text, s: Sending, v: Json, signature: Text)
  {
    && Messages.Exact(v, ResponseKeys(n)) && Shallow(v, 0) && PayloadWalk.Nodes(v) <= 2_048
    && Field(v, n.protocolVersion) == Some(Integer(1)) && Says(v, n.purpose, n.responsePurpose)
    && Says(v, n.runtimeConnection, n.notConfigured) && Says(v, n.signerKeyId, keyId)
    && Says(v, n.payloadHash, s.hash) && Says(v, n.requestHash, s.requestHash) && Says(v, n.signature, signature)
    && IsSignature(signature) && |rules.unbase64(signature)| == 64 &&
       rules.base64(rules.unbase64(signature)) == signature
  }

  lemma {:induction false} SignerOf(
    n: Names, rules: Rules, keyId: Text, s: Sending, b: Bytes, v: Json, whole: Text, signature: Text)
    requires Spells(rules, b, v, whole) && 2 <= |b| <= 1_024
    ensures SignerReads(n, rules, keyId, s, b) == Some(signature) <==> IsAnswer(n, rules, keyId, s, v, signature)
  {
    SpellsMeans(rules, b, v, whole);
    BoundedExactly(v);
  }

  lemma {:induction false} SignerSpells(n: Names, rules: Rules, keyId: Text, s: Sending, b: Bytes)
    requires SignerReads(n, rules, keyId, s, b).Some?
    ensures 2 <= |b| <= 1_024 && DecodeText(b).Some? && Parse(DecodeText(b).value).Some?
    ensures Spells(rules, b, Parse(DecodeText(b).value).value, DecodeText(b).value)
  {
    SpellsMeans(rules, b, Parse(DecodeText(b).value).value, DecodeText(b).value);
  }

  /**
   * Whatever bytes come back, the signer takes this signature exactly when they spell, in 2 to 1024
   * bytes, an answer to its own request that carries it.
   */
  lemma {:induction false} TakesExactly(n: Names, rules: Rules, keyId: Text, s: Sending, b: Bytes, signature: Text)
    ensures SignerReads(n, rules, keyId, s, b) == Some(signature) <==>
            && 2 <= |b| <= 1_024
            && exists v, whole :: Spells(rules, b, v, whole) && IsAnswer(n, rules, keyId, s, v, signature)
  {
    if SignerReads(n, rules, keyId, s, b) == Some(signature) {
      SignerSpells(n, rules, keyId, s, b);
      var whole := DecodeText(b).value;
      SignerOf(n, rules, keyId, s, b, Parse(whole).value, whole, signature);
    }
    if 2 <= |b| <= 1_024 &&
       exists v, whole :: Spells(rules, b, v, whole) && IsAnswer(n, rules, keyId, s, v, signature) {
      var v, whole :| Spells(rules, b, v, whole) && IsAnswer(n, rules, keyId, s, v, signature);
      SignerOf(n, rules, keyId, s, b, v, whole, signature);
    }
  }
}
