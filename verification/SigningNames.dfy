/** The keys and texts that the source's signing messages use. */
module SigningNames {
  import opened Texts
  import opened SigningChain

  const SCHEMA_VERSION: Text := Ascii("schemaVersion")
  const PROTOCOL_VERSION: Text := Ascii("protocolVersion")
  const PURPOSE: Text := Ascii("purpose")
  const SIGNER_KEY_ID: Text := Ascii("signerKeyId")
  const PAYLOAD_HASH: Text := Ascii("snapshotPayloadHash")
  const REQUEST_HASH: Text := Ascii("signingRequestHash")
  const PAYLOAD: Text := Ascii("payload")
  const RUNTIME_CONNECTION: Text := Ascii("runtimeConnection")
  const SIGNATURE: Text := Ascii("signature")
  const ALGORITHM: Text := Ascii("algorithm")
  const AUTHORIZATIONS: Text := Ascii("authorizations")
  const ISSUED_AT: Text := Ascii("issuedAt")
  const PREVIOUS_HASH: Text := Ascii("previousSnapshotHash")
  const SNAPSHOT_ID: Text := Ascii("snapshotId")
  const SNAPSHOT_VERSION: Text := Ascii("snapshotVersion")
  const INSTANCE_ID: Text := Ascii("supervisorInstanceId")
  const VALID_UNTIL: Text := Ascii("validUntil")

  const ED25519: Text := Ascii("ED25519")
  const NOT_CONFIGURED: Text := Ascii("NOT_CONFIGURED")
  /** `RETAINED_NATIVE_SUPERVISOR_MODULE_AUTHORIZATION`, and what the messages add to it. */
  function Native(): (t: Text) { Ascii("RETAINED_NATIVE_") + Ascii("SUPERVISOR_MODULE_") }
  function Authorization(): (t: Text) { Native() + Ascii("AUTHORIZATION") }
  function Snapshot(): (t: Text) { Authorization() + Ascii("_SNAPSHOT") }
  function RequestPurpose(): (t: Text) { Snapshot() + Ascii("_SIGNING_REQUEST") }
  function ResponsePurpose(): (t: Text) { Snapshot() + Ascii("_SIGNING_RESPONSE") }

  function SourceNames(): (n: Names)
  {
    Names(SCHEMA_VERSION, PROTOCOL_VERSION, PURPOSE, SIGNER_KEY_ID, PAYLOAD_HASH, REQUEST_HASH, PAYLOAD,
      RUNTIME_CONNECTION,
          SIGNATURE, ALGORITHM, AUTHORIZATIONS, ISSUED_AT, PREVIOUS_HASH, SNAPSHOT_ID, SNAPSHOT_VERSION, INSTANCE_ID,
          VALID_UNTIL,
          ED25519, NOT_CONFIGURED, Authorization(), Snapshot(), RequestPurpose(), ResponsePurpose())
  }

  /** Letters only, and not too many. */
  predicate AreLetters(s: string)
  {
    1 <= |s| <= 20 && forall i :: 0 <= i < |s| ==> 'A' <= s[i] <= 'Z' || 'a' <= s[i] <= 'z'
  }

  /** Capitals, digits and underscores. */
  predicate AreCapitals(s: string)
  {
    forall i :: 0 <= i < |s| ==> 'A' <= s[i] <= 'Z' || '0' <= s[i] <= '9' || s[i] == '_'
  }

  lemma {:induction false} LettersName(s: string)
    requires AreLetters(s)
    ensures IsShortName(Ascii(s))
  {
    var t := Ascii(s);
    assert forall i :: 0 <= i < |t| ==> IsLetter(t[i]);
  }

  lemma {:induction false} CapitalsShow(s: string)
    requires AreCapitals(s)
    ensures AllShown(Ascii(s))
  {
  }

  lemma {:induction false} MessageSpelling()
    ensures AreLetters("schemaVersion") && AreLetters("protocolVersion") && AreLetters("purpose")
  {
  }

  lemma {:induction false} MessageKeys()
    ensures IsShortName(SCHEMA_VERSION) && IsShortName(PROTOCOL_VERSION) && IsShortName(PURPOSE)
  {
    MessageSpelling();
    LettersName("schemaVersion");
    LettersName("protocolVersion");
    LettersName("purpose");
  }

  lemma {:induction false} HashSpelling()
    ensures AreLetters("signerKeyId") && AreLetters("snapshotPayloadHash") && AreLetters("signingRequestHash")
  {
  }

  lemma {:induction false} HashKeys()
    ensures IsShortName(SIGNER_KEY_ID) && IsShortName(PAYLOAD_HASH) && IsShortName(REQUEST_HASH)
  {
    HashSpelling();
    LettersName("signerKeyId");
    LettersName("snapshotPayloadHash");
    LettersName("signingRequestHash");
  }

  lemma {:induction false} PayloadSpelling()
    ensures AreLetters("payload") && AreLetters("runtimeConnection") && AreLetters("authorizations")
  {
  }

  lemma {:induction false} PayloadFieldKeys()
    ensures IsShortName(PAYLOAD) && IsShortName(RUNTIME_CONNECTION) && IsShortName(AUTHORIZATIONS)
  {
    PayloadSpelling();
    LettersName("payload");
    LettersName("runtimeConnection");
    LettersName("authorizations");
  }

  lemma {:induction false} SignatureSpelling()
    ensures AreLetters("signature") && AreLetters("algorithm") && AreLetters("issuedAt")
  {
  }

  lemma {:induction false} SignatureKeys()
    ensures IsShortName(SIGNATURE) && IsShortName(ALGORITHM) && IsShortName(ISSUED_AT)
  {
    SignatureSpelling();
    LettersName("signature");
    LettersName("algorithm");
    LettersName("issuedAt");
  }

  lemma {:induction false} TimeSpelling()
    ensures AreLetters("previousSnapshotHash") && AreLetters("validUntil")
  {
  }

  lemma {:induction false} TimeKeys()
    ensures IsShortName(PREVIOUS_HASH) && IsShortName(VALID_UNTIL)
  {
    TimeSpelling();
    LettersName("previousSnapshotHash");
    LettersName("validUntil");
  }

  lemma {:induction false} SnapshotSpelling()
    ensures AreLetters("snapshotId") && AreLetters("snapshotVersion") && AreLetters("supervisorInstanceId")
  {
  }

  lemma {:induction false} SnapshotKeys()
    ensures IsShortName(SNAPSHOT_ID) && IsShortName(SNAPSHOT_VERSION) && IsShortName(INSTANCE_ID)
  {
    SnapshotSpelling();
    LettersName("snapshotId");
    LettersName("snapshotVersion");
    LettersName("supervisorInstanceId");
  }

  lemma {:induction false} NativeSpelling()
    ensures AreCapitals("RETAINED_NATIVE_") && AreCapitals("SUPERVISOR_MODULE_") && AreCapitals("AUTHORIZATION")
  {
  }

  lemma {:induction false} SuffixSpelling()
    ensures AreCapitals("_SNAPSHOT") && AreCapitals("_SIGNING_REQUEST") && AreCapitals("_SIGNING_RESPONSE")
  {
  }

  lemma {:induction false} ShortSpelling()
    ensures AreCapitals("ED25519") && AreCapitals("NOT_CONFIGURED")
  {
  }

  /** A shown text with capitals after it. */
  lemma {:induction false} SuffixShows(t: Text, s: string)
    requires AllShown(t) && AreCapitals(s)
    ensures AllShown(t + Ascii(s)) && |t + Ascii(s)| == |t| + |s|
  {
    CapitalsShow(s);
  }

  lemma {:induction false} AuthorizationShown()
    ensures AllShown(Authorization()) && |Authorization()| == 47
  {
    NativeSpelling();
    CapitalsShow("RETAINED_NATIVE_");
    SuffixShows(Ascii("RETAINED_NATIVE_"), "SUPERVISOR_MODULE_");
    SuffixShows(Native(), "AUTHORIZATION");
  }

  lemma {:induction false} SnapshotShown()
    ensures AllShown(Snapshot()) && |Snapshot()| == 56
  {
    AuthorizationShown();
    SuffixSpelling();
    SuffixShows(Authorization(), "_SNAPSHOT");
  }

  lemma {:induction false} PurposesShown()
    ensures IsShortText(RequestPurpose()) && IsShortText(ResponsePurpose())
  {
    SnapshotShown();
    SuffixSpelling();
    SuffixShows(Snapshot(), "_SIGNING_REQUEST");
    SuffixShows(Snapshot(), "_SIGNING_RESPONSE");
  }

  lemma {:induction false} ShortTextsShown()
    ensures IsShortText(ED25519) && IsShortText(NOT_CONFIGURED)
  {
    ShortSpelling();
    CapitalsShow("ED25519");
    CapitalsShow("NOT_CONFIGURED");
  }

  lemma {:induction false} Lengths()
    ensures |SCHEMA_VERSION| == 13 && |PROTOCOL_VERSION| == 15 && |PURPOSE| == 7 && |SIGNER_KEY_ID| == 11 &&
            |PAYLOAD_HASH| == 19
    ensures |REQUEST_HASH| == 18 && |PAYLOAD| == 7 && |RUNTIME_CONNECTION| == 17 && |SIGNATURE| == 9 && |ALGORITHM| == 9
    ensures |AUTHORIZATIONS| == 14 && |ISSUED_AT| == 8 && |PREVIOUS_HASH| == 20 && |SNAPSHOT_ID| == 10 &&
            |SNAPSHOT_VERSION| == 15
    ensures |INSTANCE_ID| == 20 && |VALID_UNTIL| == 10
  {
  }

  lemma {:induction false} Heads()
    ensures PURPOSE[1] == 117 && PAYLOAD[1] == 97 && PROTOCOL_VERSION[0] == 112 && SNAPSHOT_VERSION[0] == 115
    ensures SIGNATURE[0] == 115 && ALGORITHM[0] == 97 && PREVIOUS_HASH[0] == 112 && INSTANCE_ID[0] == 115
    ensures SNAPSHOT_ID[0] == 115 && VALID_UNTIL[0] == 118
  {
  }

  /** Keys of these lengths, with five pairs of equal length told apart. */
  lemma {:induction false} LengthsTellApart(n: Names)
    requires |n.schemaVersion| == 13 && |n.protocolVersion| == |n.snapshotVersion| == 15 &&
             |n.purpose| == |n.payload| == 7
    requires |n.signerKeyId| == 11 && |n.payloadHash| == 19 && |n.requestHash| == 18 && |n.runtimeConnection| == 17
    requires |n.signature| == |n.algorithm| == 9 && |n.authorizations| == 14 && |n.issuedAt| == 8
    requires |n.previousHash| == |n.instanceId| == 20 && |n.snapshotId| == |n.validUntil| == 10
    requires n.protocolVersion != n.snapshotVersion && n.purpose != n.payload && n.signature != n.algorithm
    requires n.previousHash != n.instanceId && n.snapshotId != n.validUntil
    ensures Distinct(n)
  {
  }

  /** The source's vocabulary is proper, so every result about a proper vocabulary is about its messages. */
  lemma {:induction false} SourceNamesAreProper()
    ensures Proper(SourceNames())
  {
    var n := SourceNames();
    Lengths();
    Heads();
    LengthsTellApart(n);
    MessageKeys();
    HashKeys();
    PayloadFieldKeys();
    SignatureKeys();
    TimeKeys();
    SnapshotKeys();
    AuthorizationShown();
    SnapshotShown();
    PurposesShown();
    ShortTextsShown();
  }
}
