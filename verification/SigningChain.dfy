/** The bounds a JSON value must meet before a signing message is read: a walk with one shared node counter. */
module InertJson {
  import opened Outcomes
  import opened Json
  import opened Canonical
  import PayloadWalk

  const MAX_JSON_DEPTH: nat := 16
  const MAX_JSON_NODES: nat := 2_048

  /** The counter after the value, or a denial. */
  function Inert(v: Json, nodes: nat, depth: nat): (r: Option<nat>)
    decreases v, 1
  {
    if nodes + 1 > MAX_JSON_NODES || depth > MAX_JSON_DEPTH then None
    else
      match v
      case NonInteger => None
      case Integer(n) => if IsSafeInteger(n) then Some(nodes + 1) else None
      case Array(items) => if |items| > MAX_ITEMS then None else InertItems(items, nodes + 1, depth + 1)
      case Object(ms) => if |ms| > MAX_MEMBERS then None else InertMembers(ms, nodes + 1, depth + 1)
      case _ => Some(nodes + 1)
  }

  function InertItems(items: seq<Json>, nodes: nat, depth: nat): (r: Option<nat>)
    decreases items, 0
  {
    if items == [] then Some(nodes)
    else
      match Inert(items[0], nodes, depth)
      case None => None
      case Some(n) => InertItems(items[1..], n, depth)
  }

  function InertMembers(ms: seq<Member>, nodes: nat, depth: nat): (r: Option<nat>)
    decreases ms, 0
  {
    if ms == [] then Some(nodes)
    else
      match Inert(ms[0].value, nodes, depth)
      case None => None
      case Some(n) => InertMembers(ms[1..], n, depth)
  }

  /** No node lies deeper than the bound, and each is allowed where it stands. */
  ghost predicate Shallow(v: Json, depth: nat)
    decreases v
  {
    depth <= MAX_JSON_DEPTH &&
    match v
    case NonInteger => false
    case Integer(n) => IsSafeInteger(n)
    case Array(items) => |items| <= MAX_ITEMS && forall i :: 0 <= i < |items| ==> Shallow(items[i], depth + 1)
    case Object(ms) => |ms| <= MAX_MEMBERS && forall i :: 0 <= i < |ms| ==> Shallow(ms[i].value, depth + 1)
    case _ => true
  }

  function Within(nodes: nat): (r: Option<nat>) { if nodes <= MAX_JSON_NODES then Some(nodes) else None }

  /** The counting walk accepts exactly the shallow values whose nodes fit under the counter. */
  lemma {:induction false} InertExact(v: Json, nodes: nat, depth: nat)
    requires nodes <= MAX_JSON_NODES
    ensures Inert(v, nodes, depth) == if Shallow(v, depth) then Within(nodes + PayloadWalk.Nodes(v)) else None
    decreases v, 1
  {
    if nodes + 1 <= MAX_JSON_NODES && depth <= MAX_JSON_DEPTH {
      match v {
        case Array(items) => if |items| <= MAX_ITEMS { InertItemsExact(items, nodes + 1, depth + 1); }
        case Object(ms) => if |ms| <= MAX_MEMBERS { InertMembersExact(ms, nodes + 1, depth + 1); }
        case _ =>
      }
    }
  }

  lemma {:induction false} InertItemsExact(items: seq<Json>, nodes: nat, depth: nat)
    requires nodes <= MAX_JSON_NODES
    ensures InertItems(items, nodes, depth) ==
            if forall i :: 0 <= i < |items| ==> Shallow(items[i], depth) then
              Within(nodes + PayloadWalk.ItemNodes(items)) else None
    decreases items, 0
  {
    if items != [] {
      InertExact(items[0], nodes, depth);
      assert forall i :: 1 <= i < |items| ==> items[i] == items[1..][i - 1];
      match Inert(items[0], nodes, depth) {
        case None =>
        case Some(n) => InertItemsExact(items[1..], n, depth);
      }
    }
  }

  lemma {:induction false} InertMembersExact(ms: seq<Member>, nodes: nat, depth: nat)
    requires nodes <= MAX_JSON_NODES
    ensures InertMembers(ms, nodes, depth) ==
            if forall i :: 0 <= i < |ms| ==> Shallow(ms[i].value, depth) then
              Within(nodes + PayloadWalk.MemberNodes(ms)) else None
    decreases ms, 0
  {
    if ms != [] {
      InertExact(ms[0].value, nodes, depth);
      assert forall i :: 1 <= i < |ms| ==> ms[i] == ms[1..][i - 1];
      match Inert(ms[0].value, nodes, depth) {
        case None =>
        case Some(n) => InertMembersExact(ms[1..], n, depth);
      }
    }
  }

  // ----- key order does not matter -----

  lemma {:induction false} InsertNodes(m: Member, ms: seq<Member>)
    ensures PayloadWalk.MemberNodes(Insert(m, ms)) == PayloadWalk.Nodes(m.value) + PayloadWalk.MemberNodes(ms)
  {
    if ms != [] && Before(ms[0].key, m.key) {
      InsertNodes(m, ms[1..]);
      assert Insert(m, ms)[1..] == Insert(m, ms[1..]);
    } else {
      assert ([m] + ms)[1..] == ms;
    }
  }

  lemma {:induction false} SortNodes(ms: seq<Member>)
    ensures PayloadWalk.MemberNodes(Sort(ms)) == PayloadWalk.MemberNodes(ms)
  {
    if ms != [] {
      SortNodes(ms[1..]);
      InsertNodes(ms[0], Sort(ms[1..]));
    }
  }

  /** Canonicalization keeps the number of nodes. */
  lemma {:induction false} CanonicalNodes(sensitive: Sensitive, v: Json)
    requires Canonicalize(sensitive, v).Some?
    ensures PayloadWalk.Nodes(Canonicalize(sensitive, v).value) == PayloadWalk.Nodes(v)
    decreases v, 1
  {
    match v {
      case Array(items) => CanonicalItemNodes(sensitive, items);
      case Object(ms) =>
        CanonicalMemberNodes(sensitive, ms);
        SortNodes(CanonicalizeMembers(sensitive, ms).value);
      case _ =>
    }
  }

  lemma {:induction false} CanonicalItemNodes(sensitive: Sensitive, items: seq<Json>)
    requires CanonicalizeItems(sensitive, items).Some?
    ensures PayloadWalk.ItemNodes(CanonicalizeItems(sensitive, items).value) == PayloadWalk.ItemNodes(items)
    decreases items, 0
  {
    if items != [] {
      CanonicalNodes(sensitive, items[0]);
      CanonicalItemNodes(sensitive, items[1..]);
      assert CanonicalizeItems(sensitive, items).value[1..] == CanonicalizeItems(sensitive, items[1..]).value;
    }
  }

  lemma {:induction false} CanonicalMemberNodes(sensitive: Sensitive, ms: seq<Member>)
    requires CanonicalizeMembers(sensitive, ms).Some?
    ensures PayloadWalk.MemberNodes(CanonicalizeMembers(sensitive, ms).value) == PayloadWalk.MemberNodes(ms)
    decreases ms, 0
  {
    if ms != [] {
      CanonicalNodes(sensitive, ms[0].value);
      CanonicalMemberNodes(sensitive, ms[1..]);
      assert CanonicalizeMembers(sensitive, ms).value[1..] == CanonicalizeMembers(sensitive, ms[1..]).value;
    }
  }

  /** Canonicalization keeps shallow values shallow. */
  lemma {:induction false} CanonicalShallow(sensitive: Sensitive, v: Json, depth: nat)
    requires Canonicalize(sensitive, v).Some? && Shallow(v, depth)
    ensures Shallow(Canonicalize(sensitive, v).value, depth)
    decreases v
  {
    match v {
      case Array(items) =>
        ItemsPointwise(sensitive, items);
        forall i | 0 <= i < |items| ensures Shallow(CanonicalizeItems(sensitive, items).value[i], depth + 1) {
          CanonicalShallow(sensitive, items[i], depth + 1);
        }
      case Object(ms) =>
        MembersPointwise(sensitive, ms);
        var cs := CanonicalizeMembers(sensitive, ms).value;
        forall i | 0 <= i < |cs| ensures Shallow(cs[i].value, depth + 1) {
          CanonicalShallow(sensitive, ms[i].value, depth + 1);
        }
        forall j | 0 <= j < |Sort(cs)| ensures Shallow(Sort(cs)[j].value, depth + 1) { assert Sort(cs)[j] in cs; }
      case _ =>
    }
  }
}

/**
 * One snapshot payload from the controller through the keyless signer and the supervisor's handler
 * to custody, and from the published snapshot to the authenticator.
 */
module SigningChain {
  import opened Outcomes
  import opened Texts
  import opened Json
  import opened Canonical
  import opened InertJson
  import JsonText
  import BridgeCodec
  import Messages = AppServerMessages

  const MAX_REQUEST_BYTES: nat := 32_768
  const MAX_RESPONSE_BYTES: nat := 1_024

  /** The host: text rules, hashing, the key pair of the signer and base64. */
  datatype Rules = Rules(
    sensitive: Sensitive,
    sha256: Text -> Text,
    sign: Bytes -> Bytes,
    verify: (Bytes, Bytes) -> bool,
    base64: Bytes -> Text,
    unbase64: Text -> Bytes)

  /** The keys of the messages and their fixed texts. */
  datatype Names = Names(
    schemaVersion: Text, protocolVersion: Text, purpose: Text, signerKeyId: Text, payloadHash: Text, requestHash: Text,
    payload: Text, runtimeConnection: Text, signature: Text, algorithm: Text, authorizations: Text, issuedAt: Text,
    previousHash: Text, snapshotId: Text, snapshotVersion: Text, instanceId: Text, validUntil: Text,
    ed25519: Text, notConfigured: Text, authorization: Text, snapshot: Text, requestPurpose: Text,
    responsePurpose: Text)

  /** Where a key stands in the vocabulary. */
  function Place(n: Names, key: Text): (p: nat)
  {
    if key == n.schemaVersion then 0
    else if key == n.protocolVersion then 1
    else if key == n.purpose then 2
    else if key == n.signerKeyId then 3
    else if key == n.payloadHash then 4
    else if key == n.requestHash then 5
    else if key == n.payload then 6
    else if key == n.runtimeConnection then 7
    else if key == n.signature then 8
    else if key == n.algorithm then 9
    else if key == n.authorizations then 10
    else if key == n.issuedAt then 11
    else if key == n.previousHash then 12
    else if key == n.snapshotId then 13
    else if key == n.snapshotVersion then 14
    else if key == n.instanceId then 15
    else if key == n.validUntil then 16
    else 17
  }

  /** No two keys are the same: each stands in its own place. */
  predicate Distinct(n: Names)
  {
    && Place(n, n.schemaVersion) == 0 && Place(n, n.protocolVersion) == 1 && Place(n, n.purpose) == 2 &&
       Place(n, n.signerKeyId) == 3
    && Place(n, n.payloadHash) == 4 && Place(n, n.requestHash) == 5 && Place(n, n.payload) == 6 &&
       Place(n, n.runtimeConnection) == 7
    && Place(n, n.signature) == 8 && Place(n, n.algorithm) == 9 && Place(n, n.authorizations) == 10 &&
       Place(n, n.issuedAt) == 11
    && Place(n, n.previousHash) == 12 && Place(n, n.snapshotId) == 13 && Place(n, n.snapshotVersion) == 14 &&
       Place(n, n.instanceId) == 15
    && Place(n, n.validUntil) == 16
  }

  /** The keys are field names of at most 20 characters, the texts at most 73 characters that show as themselves. */
  predicate Named(n: Names)
  {
    && IsShortName(n.schemaVersion) && IsShortName(n.protocolVersion) && IsShortName(n.purpose) &&
       IsShortName(n.signerKeyId)
    && IsShortName(n.payloadHash) && IsShortName(n.requestHash) && IsShortName(n.payload) &&
       IsShortName(n.runtimeConnection)
    && IsShortName(n.signature) && IsShortName(n.algorithm) && IsShortName(n.authorizations) && IsShortName(n.issuedAt)
    && IsShortName(n.previousHash) && IsShortName(n.snapshotId) && IsShortName(n.snapshotVersion) &&
       IsShortName(n.instanceId)
    && IsShortName(n.validUntil)
    && IsShortText(n.ed25519) && IsShortText(n.notConfigured) && IsShortText(n.authorization)
    && IsShortText(n.snapshot) && IsShortText(n.requestPurpose) && IsShortText(n.responsePurpose)
  }

  predicate Proper(n: Names) { Distinct(n) && Named(n) }

  predicate IsShortText(t: Text) { AllShown(t) && |t| <= 73 }

  predicate IsShortName(key: Text) { IsFieldName(key) && AllShown(key) && |key| <= 20 }

  function RequestKeys(
    n: Names): (keys: seq<Text>) { [n.payload, n.purpose, n.schemaVersion, n.signerKeyId, n.payloadHash] }

  function EnvelopeKeys(n: Names): (keys: seq<Text>)
  {
    [n.payload, n.protocolVersion, n.purpose, n.runtimeConnection, n.signerKeyId, n.requestHash, n.payloadHash]
  }

  function ResponseKeys(n: Names): (keys: seq<Text>)
  {
    [n.protocolVersion, n.purpose, n.runtimeConnection, n.signature, n.signerKeyId, n.requestHash, n.payloadHash]
  }

  function PayloadKeys(n: Names): (keys: seq<Text>)
    ensures |keys| == 11
  {
    [n.algorithm, n.authorizations, n.issuedAt, n.previousHash, n.purpose, n.schemaVersion, n.signerKeyId, n.snapshotId,
     n.snapshotVersion, n.instanceId, n.validUntil]
  }

  predicate HasText(v: Json, key: Text, t: Text) { Field(v, key) == Some(String(t)) }

  // ----- what each party reads and writes -----

  /** The payload checks that signer and handler share. */
  predicate IsPayload(n: Names, p: Json, keyId: Text)
  {
    && Messages.Exact(p, PayloadKeys(n)) && Field(p, n.schemaVersion) == Some(Integer(1)) &&
       HasText(p, n.purpose, n.authorization)
    && HasText(p, n.algorithm, n.ed25519) && HasText(p, n.signerKeyId, keyId)
  }

  function HashOf(rules: Rules, v: Json): (h: Option<Text>)
  {
    match CanonicalJson(rules.sensitive, v)
    case None => None
    case Some(t) => Some(rules.sha256(t))
  }

  /** What the request hash covers. */
  function Binding(n: Names, keyId: Text, hash: Text, payload: Json): (v: Json)
  {
    Object([
      Member(n.protocolVersion, Integer(1)), Member(n.purpose, String(n.requestPurpose)),
      Member(n.signerKeyId, String(keyId)),
      Member(n.payloadHash, String(hash)), Member(n.payload, payload),
      Member(n.runtimeConnection, String(n.notConfigured))])
  }

  function Envelope(n: Names, keyId: Text, hash: Text, payload: Json, requestHash: Text): (v: Json)
  {
    Object(Binding(n, keyId, hash, payload).members + [Member(n.requestHash, String(requestHash))])
  }

  /** The request the controller makes of a payload. */
  function SigningRequest(n: Names, keyId: Text, hash: Text, payload: Json): (v: Json)
  {
    Object([
      Member(n.schemaVersion, Integer(1)), Member(n.purpose, String(n.snapshot)), Member(n.signerKeyId, String(keyId)),
      Member(n.payloadHash, String(hash)), Member(n.payload, payload)])
  }

  /** The signer's reading of a request: its payload hash and its payload. */
  function ReadRequest(n: Names, rules: Rules, keyId: Text, request: Json): (r: Option<(Text, Json)>)
  {
    match (Inert(request, 0, 0), Field(request, n.payloadHash), Field(request, n.payload))
    case (Some(_), Some(String(hash)), Some(payload)) =>
      if Messages.Exact(request, RequestKeys(n)) && Field(request, n.schemaVersion) == Some(Integer(1)) &&
         HasText(request, n.purpose, n.snapshot) && HasText(request, n.signerKeyId, keyId) && IsDigest(hash) &&
         IsPayload(n, payload, keyId) && HashOf(rules, payload) == Some(hash)
      then Some((hash, payload)) else None
    case _ => None
  }

  datatype Sending = Sending(hash: Text, requestHash: Text, payload: Json, bytes: Bytes)

  /** What the signer sends over its channel. */
  function SignerSends(n: Names, rules: Rules, keyId: Text, request: Json): (r: Option<Sending>)
  {
    match ReadRequest(n, rules, keyId, request)
    case None => None
    case Some((hash, payload)) =>
      match HashOf(rules, Binding(n, keyId, hash, payload))
      case None => None
      case Some(requestHash) =>
        match CanonicalJson(rules.sensitive, Envelope(n, keyId, hash, payload, requestHash))
        case None => None
        case Some(t) =>
          if |Utf8(t)| > MAX_REQUEST_BYTES then None else Some(Sending(hash, requestHash, payload, Utf8(t)))
  }

  /** `TextDecoder` drops a leading byte order mark. */
  function DecodeText(b: Bytes): (t: Option<Text>)
  {
    FromUtf8(if |b| >= 3 && b[..3] == [0xEF, 0xBB, 0xBF] then b[3..] else b)
  }

  datatype Custody = Custody(hash: Text, requestHash: Text, bytes: Bytes)

  /** The handler's checks of a parsed envelope whose text was canonical. */
  function ReadEnvelope(n: Names, rules: Rules, keyId: Text, v: Json): (r: Option<Custody>)
  {
    match (Field(v, n.payloadHash), Field(v, n.requestHash), Field(v, n.payload))
    case (Some(String(hash)), Some(String(requestHash)), Some(payload)) =>
      if Messages.Exact(v, EnvelopeKeys(n)) && Field(v, n.protocolVersion) == Some(Integer(1)) &&
        HasText(v, n.purpose, n.requestPurpose) &&
         HasText(v, n.runtimeConnection, n.notConfigured) && HasText(v, n.signerKeyId, keyId) && IsDigest(hash) &&
           IsDigest(requestHash) &&
         IsPayload(n, payload, keyId) && HashOf(rules, payload) == Some(hash) &&
           HashOf(rules, Binding(n, keyId, hash, payload)) == Some(requestHash)
      then
        (match CanonicalJson(rules.sensitive, payload)
         case None => None
         case Some(t) => Some(Custody(hash, requestHash, Utf8(t))))
      else None
    case _ => None
  }

  /** What the handler hands to custody. */
  function HandlerReads(n: Names, rules: Rules, keyId: Text, b: Bytes): (r: Option<Custody>)
  {
    if |b| < 2 || |b| > MAX_REQUEST_BYTES then None
    else
      match DecodeText(b)
      case None => None
      case Some(t) =>
        match Parse(t)
        case None => None
        case Some(v) =>
          if Inert(v, 0, 0).Some? && CanonicalJson(rules.sensitive, v) == Some(t) then ReadEnvelope(n, rules, keyId, v)
            else None
  }

  // ----- from the signer to custody -----

  /** Canonical entries depend only on the keys and the canonical values. */
  lemma {:induction false} MembersAgree(sensitive: Sensitive, a: seq<Member>, b: seq<Member>)
    requires |a| == |b|
    requires forall i :: 0 <= i < |a| ==>
             a[i].key == b[i].key &&
             Canonicalize(sensitive, a[i].value) == Canonicalize(sensitive, b[i].value)
    ensures CanonicalizeMembers(sensitive, a) == CanonicalizeMembers(sensitive, b)
  {
    if a != [] {
      assert forall i :: 1 <= i < |a| ==> a[i] == a[1..][i - 1] && b[i] == b[1..][i - 1];
      MembersAgree(sensitive, a[1..], b[1..]);
    }
  }

  /** A member may be replaced by one with the same canonical value. */
  lemma {:induction false} ReplacedAgrees(sensitive: Sensitive, ms: seq<Member>, k: nat, m: Member)
    requires k < |ms| && m.key == ms[k].key && Canonicalize(sensitive, m.value) == Canonicalize(sensitive, ms[k].value)
    ensures CanonicalJson(sensitive, Object(ms[k := m])) == CanonicalJson(sensitive, Object(ms))
  {
    MembersAgree(sensitive, ms[k := m], ms);
  }

  /** The binding of the canonical payload has the canonical text of the binding. */
  lemma {:induction false} BindingAgrees(n: Names, sensitive: Sensitive, keyId: Text, hash: Text, p: Json, q: Json)
    requires Canonicalize(sensitive, p) == Canonicalize(sensitive, q)
    ensures CanonicalJson(sensitive, Binding(n, keyId, hash, p)) == CanonicalJson(sensitive, Binding(n, keyId, hash, q))
  {
    var ms := Binding(n, keyId, hash, p).members;
    ReplacedAgrees(sensitive, ms, 4, Member(n.payload, q));
    assert Binding(n, keyId, hash, q).members == ms[4 := Member(n.payload, q)];
  }

  lemma {:induction false} EnvelopeKeysDiffer(n: Names, keyId: Text, hash: Text, payload: Json, requestHash: Text)
    requires Distinct(n)
    ensures var ms := Envelope(n, keyId, hash, payload, requestHash).members;
            && |ms| == 7 && DistinctKeys(ms)
            && ms[0].key == n.protocolVersion && ms[1].key == n.purpose && ms[2].key == n.signerKeyId &&
               ms[3].key == n.payloadHash
            && ms[4].key == n.payload && ms[5].key == n.runtimeConnection && ms[6].key == n.requestHash
  {
  }

  lemma {:induction false} EnvelopeWellKeyed(n: Names, keyId: Text, hash: Text, payload: Json, requestHash: Text)
    requires Distinct(n) && WellKeyed(payload)
    ensures WellKeyed(Envelope(n, keyId, hash, payload, requestHash))
  {
    EnvelopeKeysDiffer(n, keyId, hash, payload, requestHash);
  }

  /** Exactness, and fields that are scalars, survive canonicalization. */
  lemma {:induction false} ExactOfCanonical(sensitive: Sensitive, v: Json, keys: seq<Text>)
    requires v.Object? && WellKeyed(v) && Canonicalize(sensitive, v).Some? && Messages.Exact(v, keys)
    ensures Messages.Exact(Canonicalize(sensitive, v).value, keys)
  {
    forall i | 0 <= i < |keys| ensures Find(Canonicalize(sensitive, v).value.members, keys[i]).Some? {
      BridgeCodec.FieldOfCanonical(sensitive, v, keys[i]);
    }
  }

  lemma {:induction false} ScalarOfCanonical(sensitive: Sensitive, v: Json, key: Text, x: Json)
    requires v.Object? && WellKeyed(v) && Canonicalize(sensitive, v).Some? && Field(v, key) == Some(x)
    requires x.String? || x.Integer?
    ensures Field(Canonicalize(sensitive, v).value, key) == Some(x)
  {
    BridgeCodec.FieldOfCanonical(sensitive, v, key);
  }

  lemma {:induction false} PayloadOfCanonical(n: Names, sensitive: Sensitive, p: Json, keyId: Text)
    requires WellKeyed(p) && IsPayload(n, p, keyId) && Canonicalize(sensitive, p).Some?
    ensures IsPayload(n, Canonicalize(sensitive, p).value, keyId)
  {
    ExactOfCanonical(sensitive, p, PayloadKeys(n));
    ScalarOfCanonical(sensitive, p, n.schemaVersion, Integer(1));
    ScalarOfCanonical(sensitive, p, n.purpose, String(n.authorization));
    ScalarOfCanonical(sensitive, p, n.algorithm, String(n.ed25519));
    ScalarOfCanonical(sensitive, p, n.signerKeyId, String(keyId));
  }

  // ----- text on the wire -----

  /** Bytes after an opening brace are decoded as they are. */
  lemma {:induction false} BracedDecodes(rest: Text)
    requires rest != [] && WellFormed([OPEN_OBJECT] + rest)
    ensures var t := [OPEN_OBJECT] + rest; |Utf8(t)| >= 2 && DecodeText(Utf8(t)) == Some(t)
  {
    var t := [OPEN_OBJECT] + rest;
    Utf8RoundTrip(t);
    BraceBytes();
    Utf8Concat([OPEN_OBJECT], rest);
    assert Utf8(t)[0] == 123 && |Utf8(rest)| >= 1;
    assert |Utf8(t)| >= 3 ==> Utf8(t)[..3][0] == 123;
  }

  /** An object's text is read back from its bytes, which start with a brace and so with no byte order mark. */
  lemma {:induction false} ObjectTextReadsBack(ms: seq<Member>)
    ensures var t := Print(Object(ms)); |Utf8(t)| >= 2 && DecodeText(Utf8(t)) == Some(t)
  {
    JsonText.PrintedText(Object(ms));
    var rest := PrintMembers(ms) + [CLOSE_OBJECT];
    assert Print(Object(ms)) == [OPEN_OBJECT] + rest;
    BracedDecodes(rest);
  }

  lemma {:induction false} BraceBytes()
    ensures WellFormed([OPEN_OBJECT]) && Utf8([OPEN_OBJECT]) == [123]
  {
    assert [OPEN_OBJECT][1..] == [];
  }

  /** Canonical text of a well-keyed object is parsed to its canonical form. */
  lemma {:induction false} CanonicalReadsBack(sensitive: Sensitive, v: Json)
    requires v.Object? && WellKeyed(v) && Canonicalize(sensitive, v).Some?
    ensures var t := Print(Canonicalize(sensitive, v).value);
            && |Utf8(t)| >= 2 && DecodeText(Utf8(t)) == Some(t) && Parse(t) == Canonicalize(sensitive, v)
            && CanonicalJson(sensitive, Canonicalize(sensitive, v).value) == Some(t)
  {
    ParseCanonicalJson(sensitive, v);
    CanonicalizeIsIdempotent(sensitive, v);
    ObjectTextReadsBack(Canonicalize(sensitive, v).value.members);
  }

  // ----- the two node counts -----

  /** An object of scalars around one value: whether it is inert is up to that value. */
  lemma {:induction false} AroundInert(ms: seq<Member>, k: nat)
    requires k < |ms| <= MAX_MEMBERS && forall i :: 0 <= i < |ms| && i != k ==>
             ms[i].value.String? ||
             ms[i].value == Integer(1)
    ensures Inert(Object(ms), 0, 0).Some? <==>
            Shallow(ms[k].value, 1) &&
            PayloadWalk.Nodes(ms[k].value) + |ms| <= MAX_JSON_NODES
  {
    InertExact(Object(ms), 0, 0);
    AroundNodes(ms, k);
    if Shallow(ms[k].value, 1) { AroundShallow(ms, k); }
  }

  lemma {:induction false} RequestShape(n: Names, keyId: Text, hash: Text, payload: Json)
    ensures var ms := SigningRequest(n, keyId, hash, payload).members;
            && |ms| == 5 && ms[4].value == payload
            && forall i :: 0 <= i < 4 ==> ms[i].value.String? || ms[i].value == Integer(1)
  {
  }

  lemma {:induction false} RequestInert(n: Names, keyId: Text, hash: Text, payload: Json)
    ensures Inert(SigningRequest(n, keyId, hash, payload), 0, 0).Some? <==>
            Shallow(payload, 1) && PayloadWalk.Nodes(payload) + 5 <= MAX_JSON_NODES
  {
    RequestShape(n, keyId, hash, payload);
    AroundInert(SigningRequest(n, keyId, hash, payload).members, 4);
  }

  lemma {:induction false} NodesConcat(a: seq<Member>, b: seq<Member>)
    ensures PayloadWalk.MemberNodes(a + b) == PayloadWalk.MemberNodes(a) + PayloadWalk.MemberNodes(b)
  {
    if a == [] {
      assert a + b == b;
    } else {
      NodesConcat(a[1..], b);
      assert (a + b)[1..] == a[1..] + b;
    }
  }

  lemma {:induction false} ScalarNodes(ms: seq<Member>)
    requires forall i :: 0 <= i < |ms| ==> ms[i].value.String? || ms[i].value.Integer? || ms[i].value.Null?
    ensures PayloadWalk.MemberNodes(ms) == |ms|
  {
    if ms != [] { ScalarNodes(ms[1..]); }
  }

  /** Scalars around one value. */
  lemma {:induction false} AroundNodes(ms: seq<Member>, k: nat)
    requires k < |ms| && forall i :: 0 <= i < |ms| && i != k ==>
             ms[i].value.String? || ms[i].value.Integer? ||
             ms[i].value.Null?
    ensures PayloadWalk.MemberNodes(ms) == |ms| - 1 + PayloadWalk.Nodes(ms[k].value)
  {
    assert ms == ms[..k] + ([ms[k]] + ms[k + 1..]);
    NodesConcat(ms[..k], [ms[k]] + ms[k + 1..]);
    ScalarNodes(ms[..k]);
    ScalarNodes(ms[k + 1..]);
    assert ([ms[k]] + ms[k + 1..])[1..] == ms[k + 1..];
  }

  lemma {:induction false} EnvelopeShape(n: Names, keyId: Text, hash: Text, payload: Json, requestHash: Text)
    ensures var v := Envelope(n, keyId, hash, payload, requestHash);
            && v.Object? && |v.members| == 7 && v.members[4].value == payload
            && forall i :: 0 <= i < 7 && i != 4 ==> v.members[i].value.String? || v.members[i].value == Integer(1)
  {
    BindingShape(Binding(n, keyId, hash, payload).members, Member(n.requestHash, String(requestHash)));
  }

  lemma {:induction false} BindingShape(ms: seq<Member>, last: Member)
    requires |ms| == 6 && last.value.String?
    requires ms[0].value == Integer(1) && ms[1].value.String? && ms[2].value.String? && ms[3].value.String? &&
             ms[5].value.String?
    ensures |ms + [last]| == 7 && (ms + [last])[4] == ms[4]
    ensures forall i :: 0 <= i < 7 && i != 4 ==> (ms + [last])[i].value.String? || (ms + [last])[i].value == Integer(1)
  {
  }

  lemma {:induction false} EnvelopeInert(n: Names, keyId: Text, hash: Text, payload: Json, requestHash: Text)
    ensures Inert(Envelope(n, keyId, hash, payload, requestHash), 0, 0).Some? <==>
            Shallow(payload, 1) && PayloadWalk.Nodes(payload) + 7 <= MAX_JSON_NODES
  {
    EnvelopeShape(n, keyId, hash, payload, requestHash);
    AroundInert(Envelope(n, keyId, hash, payload, requestHash).members, 4);
  }

  /** Whether a value is inert does not depend on canonicalization, if it is shallow. */
  lemma {:induction false} InertOfCanonical(sensitive: Sensitive, v: Json)
    requires Canonicalize(sensitive, v).Some? && Shallow(v, 0)
    ensures Inert(Canonicalize(sensitive, v).value, 0, 0).Some? <==> Inert(v, 0, 0).Some?
  {
    InertExact(v, 0, 0);
    InertExact(Canonicalize(sensitive, v).value, 0, 0);
    CanonicalNodes(sensitive, v);
    CanonicalShallow(sensitive, v, 0);
  }

  // ----- from the signer to custody, every byte -----

  lemma {:induction false} EnvelopeFields(n: Names, keyId: Text, hash: Text, payload: Json, requestHash: Text)
    requires Distinct(n)
    ensures var v := Envelope(n, keyId, hash, payload, requestHash);
            && Field(v, n.protocolVersion) == Some(Integer(1)) && HasText(v, n.purpose, n.requestPurpose)
            && HasText(v, n.signerKeyId, keyId) && HasText(v, n.payloadHash, hash) &&
               Field(v, n.payload) == Some(payload)
            && HasText(v, n.runtimeConnection, n.notConfigured) && HasText(v, n.requestHash, requestHash)
  {
    EnvelopeKeysDiffer(n, keyId, hash, payload, requestHash);
    FindEach(Envelope(n, keyId, hash, payload, requestHash).members);
  }

  lemma {:induction false} FindEach(ms: seq<Member>)
    requires DistinctKeys(ms)
    ensures forall i :: 0 <= i < |ms| ==> Find(ms, ms[i].key) == Some(ms[i].value)
  {
    forall i | 0 <= i < |ms| ensures Find(ms, ms[i].key) == Some(ms[i].value) { FindAt(ms, i); }
  }

  lemma {:induction false} EnvelopeExact(n: Names, keyId: Text, hash: Text, payload: Json, requestHash: Text)
    requires Distinct(n)
    ensures Messages.Exact(Envelope(n, keyId, hash, payload, requestHash), EnvelopeKeys(n))
  {
    EnvelopeFields(n, keyId, hash, payload, requestHash);
    AllFound(Envelope(n, keyId, hash, payload, requestHash), n.payload, n.protocolVersion, n.purpose,
      n.runtimeConnection,
             n.signerKeyId, n.requestHash, n.payloadHash);
  }

  lemma {:induction false} AllFound(v: Json, a: Text, b: Text, c: Text, d: Text, e: Text, f: Text, g: Text)
    requires v.Object? && |v.members| == 7
    requires Field(v, a).Some? && Field(v, b).Some? && Field(v, c).Some? && Field(v, d).Some?
    requires Field(v, e).Some? && Field(v, f).Some? && Field(v, g).Some?
    ensures Messages.Exact(v, [a, b, c, d, e, f, g])
  {
  }

  lemma {:induction false} ReadFromFields(
    n: Names, rules: Rules, keyId: Text, v: Json, hash: Text, requestHash: Text, payload: Json)
    requires Messages.Exact(v, EnvelopeKeys(n)) && Field(v, n.protocolVersion) == Some(Integer(1)) &&
             HasText(v, n.purpose, n.requestPurpose)
    requires HasText(v, n.runtimeConnection, n.notConfigured) && HasText(v, n.signerKeyId, keyId)
    requires HasText(v, n.payloadHash, hash) && HasText(v, n.requestHash, requestHash) &&
             Field(v, n.payload) == Some(payload)
    requires IsDigest(hash) && IsDigest(requestHash) && IsPayload(n, payload, keyId)
    requires HashOf(rules, payload) == Some(hash) &&
             HashOf(rules, Binding(n, keyId, hash, payload)) == Some(requestHash)
    ensures ReadEnvelope(n, rules, keyId, v) ==
            Some(Custody(hash, requestHash, Utf8(CanonicalJson(rules.sensitive, payload).value)))
  {
  }

  /** The handler reads the canonical form of the signer's envelope as the signer meant it. */
  lemma {:induction false} EnvelopeIsRead(
    n: Names, rules: Rules, keyId: Text, hash: Text, payload: Json, requestHash: Text)
    requires Distinct(n)
    requires WellKeyed(payload) && IsPayload(n, payload, keyId) && HashOf(rules, payload) == Some(hash)
    requires HashOf(rules, Binding(n, keyId, hash, payload)) == Some(requestHash) && IsDigest(hash) &&
             IsDigest(requestHash)
    requires Canonicalize(rules.sensitive, Envelope(n, keyId, hash, payload, requestHash)).Some?
    ensures var c := Canonicalize(rules.sensitive, Envelope(n, keyId, hash, payload, requestHash)).value;
            ReadEnvelope(n, rules, keyId, c) ==
              Some(Custody(hash, requestHash, Utf8(CanonicalJson(rules.sensitive, payload).value)))
  {
    var v := Envelope(n, keyId, hash, payload, requestHash);
    EnvelopeWellKeyed(n, keyId, hash, payload, requestHash);
    EnvelopeFields(n, keyId, hash, payload, requestHash);
    EnvelopeExact(n, keyId, hash, payload, requestHash);
    ExactOfCanonical(rules.sensitive, v, EnvelopeKeys(n));
    ScalarOfCanonical(rules.sensitive, v, n.protocolVersion, Integer(1));
    ScalarOfCanonical(rules.sensitive, v, n.purpose, String(n.requestPurpose));
    ScalarOfCanonical(rules.sensitive, v, n.signerKeyId, String(keyId));
    ScalarOfCanonical(rules.sensitive, v, n.payloadHash, String(hash));
    ScalarOfCanonical(rules.sensitive, v, n.runtimeConnection, String(n.notConfigured));
    ScalarOfCanonical(rules.sensitive, v, n.requestHash, String(requestHash));
    BridgeCodec.FieldOfCanonical(rules.sensitive, v, n.payload);
    PayloadOfCanonical(n, rules.sensitive, payload, keyId);
    var q := Canonicalize(rules.sensitive, payload).value;
    CanonicalizeIsIdempotent(rules.sensitive, payload);
    BindingAgrees(n, rules.sensitive, keyId, hash, payload, q);
    ReadFromFields(n, rules, keyId, Canonicalize(rules.sensitive, v).value, hash, requestHash, q);
  }

  lemma {:induction false} EnvelopeShallow(n: Names, keyId: Text, hash: Text, payload: Json, requestHash: Text)
    requires Shallow(payload, 1)
    ensures Shallow(Envelope(n, keyId, hash, payload, requestHash), 0)
  {
    EnvelopeShape(n, keyId, hash, payload, requestHash);
    var ms := Envelope(n, keyId, hash, payload, requestHash).members;
    AroundShallow(ms, 4);
    assert Envelope(n, keyId, hash, payload, requestHash) == Object(ms);
  }

  lemma {:induction false} AroundShallow(ms: seq<Member>, k: nat)
    requires k < |ms| <= MAX_MEMBERS && Shallow(ms[k].value, 1)
    requires forall i :: 0 <= i < |ms| && i != k ==> ms[i].value.String? || ms[i].value == Integer(1)
    ensures Shallow(Object(ms), 0)
  {
  }

  /** A sent request can be read back, and then holds what the signer hashed. */
  lemma {:induction false} SentIsRead(n: Names, rules: Rules, keyId: Text, payload: Json, s: Sending)
    requires Distinct(n)
    requires WellKeyed(payload) && Shallow(payload, 1) && (forall t :: IsDigest(rules.sha256(t)))
    requires s.payload == payload && IsPayload(n, payload, keyId) && HashOf(rules, payload) == Some(s.hash)
    requires HashOf(rules, Binding(n, keyId, s.hash, payload)) == Some(s.requestHash) && |s.bytes| <= MAX_REQUEST_BYTES
    requires var t := CanonicalJson(rules.sensitive, Envelope(n, keyId, s.hash, payload, s.requestHash));
             t.Some? && s.bytes == Utf8(t.value)
    ensures HandlerReads(n, rules, keyId, s.bytes) ==
            if PayloadWalk.Nodes(payload) + 7 <= MAX_JSON_NODES
            then Some(Custody(s.hash, s.requestHash, Utf8(CanonicalJson(rules.sensitive, payload).value))) else None
  {
    var v := Envelope(n, keyId, s.hash, payload, s.requestHash);
    EnvelopeWellKeyed(n, keyId, s.hash, payload, s.requestHash);
    CanonicalReadsBack(rules.sensitive, v);
    EnvelopeShallow(n, keyId, s.hash, payload, s.requestHash);
    InertOfCanonical(rules.sensitive, v);
    EnvelopeInert(n, keyId, s.hash, payload, s.requestHash);
    EnvelopeIsRead(n, rules, keyId, s.hash, payload, s.requestHash);
  }

  lemma {:induction false} RequestKeysDiffer(n: Names, keyId: Text, hash: Text, payload: Json)
    requires Distinct(n)
    ensures var ms := SigningRequest(n, keyId, hash, payload).members;
            DistinctKeys(ms) && ms[3].key == n.payloadHash && ms[4].key == n.payload
  {
  }

  lemma {:induction false} RequestFields(n: Names, keyId: Text, hash: Text, payload: Json)
    requires Distinct(n)
    ensures var v := SigningRequest(n, keyId, hash, payload);
            HasText(v, n.payloadHash, hash) && Field(v, n.payload) == Some(payload)
  {
    var ms := SigningRequest(n, keyId, hash, payload).members;
    RequestKeysDiffer(n, keyId, hash, payload);
    FindAt(ms, 3);
    FindAt(ms, 4);
  }

  /**
   * For every payload the signer sends on, custody receives exactly the canonical bytes of that
   * payload, under the hash that the controller computed, unless the payload has 2042 or 2043 nodes:
   * the envelope has two members more than the request, and the same limit.
   */
  lemma {:induction false} CustodyGetsThePayload(n: Names, rules: Rules, keyId: Text, hash: Text, payload: Json)
    requires Distinct(n)
    requires WellKeyed(payload) && forall t :: IsDigest(rules.sha256(t))
    ensures match SignerSends(n, rules, keyId, SigningRequest(n, keyId, hash, payload))
            case None => true
            case Some(s) =>
              && s.hash == hash && HashOf(rules, payload) == Some(hash) &&
                 PayloadWalk.Nodes(payload) + 5 <= MAX_JSON_NODES
              && HandlerReads(n, rules, keyId, s.bytes) ==
                 if PayloadWalk.Nodes(payload) + 7 <= MAX_JSON_NODES
                 then Some(Custody(hash, s.requestHash, Utf8(CanonicalJson(rules.sensitive, payload).value))) else None
  {
    RequestFields(n, keyId, hash, payload);
    RequestInert(n, keyId, hash, payload);
    match SignerSends(n, rules, keyId, SigningRequest(n, keyId, hash, payload)) {
      case None =>
      case Some(s) => SentIsRead(n, rules, keyId, payload, s);
    }
  }

  /** Whatever bytes arrive, custody is only ever handed the canonical bytes of a checked payload, under its hash. */
  lemma {:induction false} CustodyOnlySeesPayloads(n: Names, rules: Rules, keyId: Text, b: Bytes)
    ensures match HandlerReads(n, rules, keyId, b)
            case None => true
            case Some(c) =>
              exists payload, t :: IsPayload(n, payload, keyId) && WellKeyed(payload) &&
                CanonicalJson(rules.sensitive, payload) == Some(t) &&
                                   c.bytes == Utf8(t) && c.hash == rules.sha256(t)
  {
    match HandlerReads(n, rules, keyId, b) {
      case None =>
      case Some(c) =>
        var v := Parse(DecodeText(b).value).value;
        JsonText.ParsedIsWellKeyed(DecodeText(b).value);
        var payload := Field(v, n.payload).value;
        var j := FindPlace(v.members, n.payload);
        var t := CanonicalJson(rules.sensitive, payload).value;
        assert IsPayload(n, payload, keyId) && WellKeyed(payload);
    }
  }

  // ----- the published snapshot -----

  function Without(ms: seq<Member>, key: Text): (r: seq<Member>)
  {
    if ms == [] then []
    else if ms[0].key == key then Without(ms[1..], key)
    else [ms[0]] + Without(ms[1..], key)
  }

  lemma {:induction false} WithoutMembers(ms: seq<Member>, key: Text)
    ensures forall i :: 0 <= i < |Without(ms, key)| ==> Without(ms, key)[i] in ms && Without(ms, key)[i].key != key
  {
    if ms != [] { WithoutMembers(ms[1..], key); }
  }

  lemma {:induction false} FindWithout(ms: seq<Member>, key: Text, other: Text)
    ensures Find(Without(ms, key), other) == if other == key then None else Find(ms, other)
  {
    if ms != [] {
      FindWithout(ms[1..], key, other);
      var tail := Without(ms[1..], key);
      assert ([ms[0]] + tail)[1..] == tail;
    }
  }

  lemma {:induction false} WithoutDistinct(ms: seq<Member>, key: Text)
    requires DistinctKeys(ms)
    ensures DistinctKeys(Without(ms, key))
  {
    if ms != [] {
      WithoutDistinct(ms[1..], key);
      WithoutMembers(ms[1..], key);
      var tail := Without(ms[1..], key);
      forall j | 0 <= j < |tail| ensures tail[j].key != ms[0].key {
        assert tail[j] in ms[1..];
        var i :| 0 <= i < |ms[1..]| && ms[1..][i] == tail[j];
        assert ms[i + 1] == tail[j];
      }
    }
  }

  lemma {:induction false} WithoutSame(a: seq<Member>, b: seq<Member>, key: Text)
    requires Same(Object(a), Object(b))
    ensures Same(Object(Without(a, key)), Object(Without(b, key)))
  {
    var u, w := Without(a, key), Without(b, key);
    WithoutMembers(a, key);
    WithoutMembers(b, key);
    forall i | 0 <= i < |u| ensures Find(w, u[i].key).Some? && Same(u[i].value, Find(w, u[i].key).value) {
      assert u[i] in a;
      var j :| 0 <= j < |a| && a[j] == u[i];
      FindWithout(b, key, a[j].key);
    }
    forall j | 0 <= j < |w| ensures Find(u, w[j].key).Some? {
      assert w[j] in b;
      var i :| 0 <= i < |b| && b[i] == w[j];
      FindWithout(a, key, b[i].key);
    }
  }

  /** The controller publishes the payload with its signature. */
  function Published(n: Names, payload: Json, signature: Text): (v: Json)
    requires payload.Object?
  {
    Object(payload.members + [Member(n.signature, String(signature))])
  }

  /** The bytes the authenticator verifies: the snapshot without its signature, canonically. */
  function VerifiedBytes(n: Names, rules: Rules, snapshot: Json): (b: Option<Bytes>)
    requires snapshot.Object?
  {
    match CanonicalJson(rules.sensitive, Object(Without(snapshot.members, n.signature)))
    case None => None
    case Some(t) => Some(Utf8(t))
  }

  lemma {:induction false} WithoutConcat(a: seq<Member>, b: seq<Member>, key: Text)
    ensures Without(a + b, key) == Without(a, key) + Without(b, key)
  {
    if a == [] {
      assert a + b == b;
    } else {
      WithoutConcat(a[1..], b, key);
      assert (a + b)[1..] == a[1..] + b && (a + b)[0] == a[0];
      var tail := Without(a[1..], key);
      if a[0].key != key { assert [a[0]] + (tail + Without(b, key)) == [a[0]] + tail + Without(b, key); }
    }
  }

  lemma {:induction false} WithoutNothing(ms: seq<Member>, key: Text)
    requires forall i :: 0 <= i < |ms| ==> ms[i].key != key
    ensures Without(ms, key) == ms
  {
    if ms != [] {
      WithoutNothing(ms[1..], key);
      assert ms == [ms[0]] + ms[1..];
    }
  }

  lemma {:induction false} WithoutLast(ms: seq<Member>, m: Member)
    requires forall i :: 0 <= i < |ms| ==> ms[i].key != m.key
    ensures Without(ms + [m], m.key) == ms
  {
    WithoutConcat(ms, [m], m.key);
    WithoutNothing(ms, m.key);
    WithoutNothing([m][1..], m.key);
  }

  // ----- whatever the order of the keys -----

  lemma {:induction false} SameLength(a: seq<Member>, b: seq<Member>)
    requires DistinctKeys(a) && DistinctKeys(b) && Same(Object(a), Object(b))
    ensures |a| == |b|
  {
    var ka, kb := set i | 0 <= i < |a| :: Keys(a)[i], set i | 0 <= i < |b| :: Keys(b)[i];
    DistinctCount(Keys(a), |a|);
    DistinctCount(Keys(b), |b|);
    forall k | k in ka ensures k in kb {
      var i :| 0 <= i < |a| && Keys(a)[i] == k;
      var j := FindPlace(b, a[i].key);
      assert Keys(b)[j] == k;
    }
    forall k | k in kb ensures k in ka {
      var j :| 0 <= j < |b| && Keys(b)[j] == k;
      var i := FindPlace(a, b[j].key);
      assert Keys(a)[i] == k;
    }
    assert ka == kb;
  }

  /** What is the same up to key order is canonicalized or rejected alike. */
  lemma {:induction false} SameCanonicalizes(sensitive: Sensitive, v: Json, w: Json)
    requires WellKeyed(v) && WellKeyed(w) && Same(v, w) && Canonicalize(sensitive, w).Some?
    ensures Canonicalize(sensitive, v).Some?
    decreases v
  {
    match (v, w) {
      case (Array(a), Array(b)) =>
        ItemsPointwise(sensitive, a);
        ItemsPointwise(sensitive, b);
        forall i | 0 <= i < |a| ensures Canonicalize(sensitive, a[i]).Some? {
          SameCanonicalizes(sensitive, a[i], b[i]);
        }
      case (Object(a), Object(b)) =>
        MembersPointwise(sensitive, a);
        MembersPointwise(sensitive, b);
        SameLength(a, b);
        forall i | 0 <= i < |a| ensures MemberAllowed(sensitive, a[i]) {
          var j := FindPlace(b, a[i].key);
          SameCanonicalizes(sensitive, a[i].value, b[j].value);
        }
      case _ =>
    }
  }

  /** Distinct keys that are all found, as many as there are members, are all the keys there are. */
  lemma {:induction false} ExactKeys(ms: seq<Member>, keys: seq<Text>, key: Text)
    requires DistinctKeys(ms) && Messages.Exact(Object(ms), keys) &&
             (forall i, j :: 0 <= i < j < |keys| ==> keys[i] != keys[j])
    requires key !in keys
    ensures forall i :: 0 <= i < |ms| ==> ms[i].key != key
  {
    var there := set i | 0 <= i < |ms| :: ms[i].key;
    var named := set i | 0 <= i < |keys| :: keys[i];
    DistinctCount(Keys(ms), |ms|);
    DistinctCount(keys, |keys|);
    assert there == set i | 0 <= i < |ms| :: Keys(ms)[i];
    forall k | k in named ensures k in there {
      var i :| 0 <= i < |keys| && keys[i] == k;
      var j := FindPlace(ms, k);
    }
    assert there == named by {
      if exists k :: k in there && k !in named {
        SubsetCount(named, there);
      }
    }
    forall i | 0 <= i < |ms| ensures ms[i].key != key {
      assert ms[i].key in there;
    }
  }

  lemma {:induction false} DistinctCount(keys: seq<Text>, n: nat)
    requires n <= |keys| && forall i, j :: 0 <= i < j < |keys| ==> keys[i] != keys[j]
    ensures |set i | 0 <= i < n :: keys[i]| == n
  {
    if n > 0 {
      DistinctCount(keys, n - 1);
      assert (set i | 0 <= i < n :: keys[i]) == (set i | 0 <= i < n - 1 :: keys[i]) + {keys[n - 1]};
    }
  }

  lemma {:induction false} SubsetCount(a: set<Text>, b: set<Text>)
    requires a < b
    ensures |a| < |b|
  {
    assert b == a + (b - a);
    assert |b - a| > 0;
  }

  /** Eleven keys in places of their own, none of them the place of `other`. */
  lemma {:induction false} ElevenDiffer(place: Text -> nat, k: seq<Text>, other: Text)
    requires |k| == 11 && place(other) == 8
    requires place(k[0]) == 9 && place(k[1]) == 10 && place(k[2]) == 11 && place(k[3]) == 12 && place(k[4]) == 2 &&
             place(k[5]) == 0
    requires place(k[6]) == 3 && place(k[7]) == 13 && place(k[8]) == 14 && place(k[9]) == 15 && place(k[10]) == 16
    ensures (forall i, j :: 0 <= i < j < 11 ==> k[i] != k[j]) && other !in k
  {
  }

  lemma {:induction false} PayloadKeysDiffer(n: Names)
    requires Distinct(n)
    ensures forall i, j :: 0 <= i < j < 11 ==> PayloadKeys(n)[i] != PayloadKeys(n)[j]
    ensures n.signature !in PayloadKeys(n)
  {
    var k := PayloadKeys(n);
    assert k[0] == n.algorithm && k[1] == n.authorizations && k[2] == n.issuedAt && k[3] == n.previousHash;
    assert k[4] == n.purpose && k[5] == n.schemaVersion && k[6] == n.signerKeyId && k[7] == n.snapshotId;
    assert k[8] == n.snapshotVersion && k[9] == n.instanceId && k[10] == n.validUntil;
    ElevenDiffer(key => Place(n, key), k, n.signature);
  }

  lemma {:induction false} PayloadIsUnsigned(n: Names, payload: Json, keyId: Text)
    requires Distinct(n)
    requires WellKeyed(payload) && IsPayload(n, payload, keyId)
    ensures forall i :: 0 <= i < |payload.members| ==> payload.members[i].key != n.signature
  {
    PayloadKeysDiffer(n);
    ExactKeys(payload.members, PayloadKeys(n), n.signature);
  }

  /**
   * The authenticator verifies the bytes that custody signed: for every snapshot that holds the
   * published fields, in any order, what it verifies is the canonical text of the payload.
   */
  lemma {:induction false} VerifiedIsPayload(
    n: Names, rules: Rules, keyId: Text, payload: Json, signature: Text, snapshot: Json)
    requires Distinct(n)
    requires WellKeyed(payload) && IsPayload(n, payload, keyId) && CanonicalJson(rules.sensitive, payload).Some?
    requires snapshot.Object? && WellKeyed(snapshot) && Same(snapshot, Published(n, payload, signature))
    ensures VerifiedBytes(n, rules, snapshot) == Some(Utf8(CanonicalJson(rules.sensitive, payload).value))
    ensures HashOf(rules, Object(Without(snapshot.members, n.signature))) == HashOf(rules, payload)
  {
    PayloadIsUnsigned(n, payload, keyId);
    var all := Published(n, payload, signature).members;
    WithoutLast(payload.members, Member(n.signature, String(signature)));
    assert Without(all, n.signature) == payload.members;
    WithoutSame(snapshot.members, all, n.signature);
    var unsigned := Object(Without(snapshot.members, n.signature));
    WithoutDistinct(snapshot.members, n.signature);
    WithoutMembers(snapshot.members, n.signature);
    assert WellKeyed(unsigned) by {
      forall i | 0 <= i < |unsigned.members| ensures WellKeyed(unsigned.members[i].value) {
        assert unsigned.members[i] in snapshot.members;
      }
    }
    SameCanonicalizes(rules.sensitive, unsigned, payload);
    CanonicalJsonAgrees(rules.sensitive, unsigned, payload);
  }

  // ----- the answer -----

  /** 86 base64 characters and two equals signs. */
  predicate IsSignature(t: Text)
  {
    && |t| == 88 && t[86] == 61 && t[87] == 61
    && forall i :: 0 <= i < 86 ==> IsAlphanumeric(t[i]) || t[i] == 43 || t[i] == 47
  }

  function Response(n: Names, keyId: Text, hash: Text, requestHash: Text, signature: Text): (v: Json)
  {
    Object([
      Member(n.protocolVersion, Integer(1)), Member(n.purpose, String(n.responsePurpose)),
      Member(n.runtimeConnection, String(n.notConfigured)),
      Member(n.signature, String(signature)), Member(n.signerKeyId, String(keyId)),
      Member(n.requestHash, String(requestHash)),
      Member(n.payloadHash, String(hash))])
  }

  /** The handler's answer to a signature of 64 bytes. */
  function HandlerAnswers(n: Names, rules: Rules, keyId: Text, c: Custody, signature: Bytes): (b: Option<Bytes>)
  {
    if |signature| != 64 then None
    else
      match CanonicalJson(rules.sensitive, Response(n, keyId, c.hash, c.requestHash, rules.base64(signature)))
      case None => None
      case Some(t) => if |Utf8(t)| > MAX_RESPONSE_BYTES then None else Some(Utf8(t))
  }

  predicate ResponseMatches(n: Names, rules: Rules, keyId: Text, hash: Text, requestHash: Text, v: Json)
  {
    && Messages.Exact(v, ResponseKeys(n)) && Field(v, n.protocolVersion) == Some(Integer(1)) &&
       HasText(v, n.purpose, n.responsePurpose)
    && HasText(v, n.runtimeConnection, n.notConfigured) && HasText(v, n.signerKeyId, keyId)
    && HasText(v, n.payloadHash, hash) && HasText(v, n.requestHash, requestHash)
  }

  /** The signature the signer takes from an answer. */
  function SignerReads(n: Names, rules: Rules, keyId: Text, s: Sending, b: Bytes): (signature: Option<Text>)
  {
    if |b| < 2 || |b| > MAX_RESPONSE_BYTES then None
    else
      match DecodeText(b)
      case None => None
      case Some(t) =>
        match Parse(t)
        case None => None
        case Some(v) =>
          match Field(v, n.signature)
          case Some(String(signature)) =>
            if Inert(v, 0, 0).Some? && CanonicalJson(rules.sensitive, v) == Some(t) &&
              ResponseMatches(n, rules, keyId, s.hash, s.requestHash, v) &&
               IsSignature(signature) && |rules.unbase64(signature)| == 64 &&
                 rules.base64(rules.unbase64(signature)) == signature
            then Some(signature) else None
          case _ => None
  }

  // ----- the length of an answer -----

  /** A character that a JSON string shows as itself. */
  predicate Shown(u: Unit) { 32 <= u < 127 && u != QUOTE && u != BACKSLASH }

  predicate AllShown(t: Text) { forall i :: 0 <= i < |t| ==> Shown(t[i]) }

  predicate IsAscii(t: Text) { forall i :: 0 <= i < |t| ==> t[i] < 128 }

  lemma {:induction false} ShownQuote(t: Text)
    requires AllShown(t)
    ensures |Quote(t)| == |t| + 2 && IsAscii(Quote(t))
  {
    ShownBody(t);
  }

  lemma {:induction false} ShownBody(t: Text)
    requires AllShown(t)
    ensures QuoteBody(t) == t
  {
    if t != [] {
      assert !StartsWithPair(t);
      ShownBody(t[1..]);
      assert Escape(t[0]) == [t[0]];
      assert t == [t[0]] + t[1..];
    }
  }

  lemma {:induction false} AsciiBytes(t: Text)
    requires IsAscii(t)
    ensures |Utf8(t)| == |t|
  {
    if t != [] {
      assert LeadLength(t) == 1 && LeadPoint(t) == t[0];
      AsciiBytes(t[1..]);
    }
  }

  /** A value whose texts are all shown, and whose only number is 1: its printed length is easy to bound. */
  predicate AllTextsShown(v: Json)
  {
    match v
    case Null => true
    case Bool(_) => true
    case Integer(n) => n == 1
    case NonInteger => false
    case String(s) => AllShown(s)
    case Array(items) => forall i :: 0 <= i < |items| ==> AllTextsShown(items[i])
    case Object(ms) => forall i :: 0 <= i < |ms| ==> ShownMember(ms[i])
  }

  predicate ShownMember(m: Member) { AllShown(m.key) && AllTextsShown(m.value) }

  /** At least the length of the printed value. */
  function Room(v: Json): (n: nat)
    decreases v, 1
  {
    match v
    case String(s) => |s| + 2
    case Array(items) => 2 + ItemsRoom(items)
    case Object(ms) => 2 + MembersRoom(ms)
    case _ => 5
  }

  function ItemsRoom(items: seq<Json>): (n: nat)
    decreases items, 0
  {
    if items == [] then 0 else Room(items[0]) + 1 + ItemsRoom(items[1..])
  }

  /** A member with its quotes, its colon and a comma. */
  function MemberRoom(m: Member): (n: nat)
    decreases m, 2
  {
    |m.key| + 4 + Room(m.value)
  }

  function MembersRoom(ms: seq<Member>): (n: nat)
    decreases ms, 0
  {
    if ms == [] then 0 else MemberRoom(ms[0]) + MembersRoom(ms[1..])
  }

  lemma {:induction false} SmallPrints()
    ensures Print(Integer(1)) == [49]
  {
  }

  lemma {:induction false} AsciiJoin(a: Text, b: Text)
    requires IsAscii(a) && IsAscii(b)
    ensures IsAscii(a + b)
  {
  }

  /** The printed text is ASCII and no longer than its room. */
  lemma {:induction false} PrintedRoom(v: Json)
    requires AllTextsShown(v)
    ensures IsAscii(Print(v)) && |Print(v)| <= Room(v)
    decreases v, 1
  {
    match v {
      case String(s) => ShownQuote(s);
      case Integer(_) => SmallPrints();
      case Array(items) =>
        PrintedItemsRoom(items);
        AsciiJoin([OPEN_ARRAY], PrintItems(items));
        AsciiJoin([OPEN_ARRAY] + PrintItems(items), [CLOSE_ARRAY]);
      case Object(ms) =>
        PrintedMembersRoom(ms);
        AsciiJoin([OPEN_OBJECT], PrintMembers(ms));
        AsciiJoin([OPEN_OBJECT] + PrintMembers(ms), [CLOSE_OBJECT]);
      case _ =>
    }
  }

  lemma {:induction false} PrintedItemsRoom(items: seq<Json>)
    requires forall i :: 0 <= i < |items| ==> AllTextsShown(items[i])
    ensures IsAscii(PrintItems(items)) && |PrintItems(items)| <= ItemsRoom(items)
    decreases items, 0
  {
    if items != [] {
      PrintedRoom(items[0]);
      PrintedItemsRoom(items[1..]);
      AsciiJoin(Print(items[0]), [COMMA]);
      AsciiJoin(Print(items[0]) + [COMMA], PrintItems(items[1..]));
    }
  }

  lemma {:induction false} PrintedMemberRoom(m: Member)
    requires ShownMember(m)
    ensures IsAscii(PrintMember(m)) && |PrintMember(m)| < MemberRoom(m)
    decreases m, 2
  {
    ShownQuote(m.key);
    PrintedRoom(m.value);
    AsciiJoin(Quote(m.key), [COLON]);
    AsciiJoin(Quote(m.key) + [COLON], Print(m.value));
  }

  lemma {:induction false} PrintedMembersRoom(ms: seq<Member>)
    requires forall i :: 0 <= i < |ms| ==> ShownMember(ms[i])
    ensures IsAscii(PrintMembers(ms)) && |PrintMembers(ms)| <= MembersRoom(ms)
    decreases ms, 0
  {
    if ms != [] {
      PrintedMemberRoom(ms[0]);
      PrintedMembersRoom(ms[1..]);
      AsciiJoin(PrintMember(ms[0]), [COMMA]);
      AsciiJoin(PrintMember(ms[0]) + [COMMA], PrintMembers(ms[1..]));
    }
  }

  lemma {:induction false} InsertRoom(m: Member, ms: seq<Member>)
    ensures MembersRoom(Insert(m, ms)) == MemberRoom(m) + MembersRoom(ms)
  {
    if ms != [] && Before(ms[0].key, m.key) {
      InsertRoom(m, ms[1..]);
      assert Insert(m, ms)[1..] == Insert(m, ms[1..]);
    } else {
      assert ([m] + ms)[1..] == ms;
    }
  }

  lemma {:induction false} SortRoom(ms: seq<Member>)
    ensures MembersRoom(Sort(ms)) == MembersRoom(ms)
  {
    if ms != [] {
      SortRoom(ms[1..]);
      InsertRoom(ms[0], Sort(ms[1..]));
    }
  }

  /** Canonicalization keeps the room and the shown texts. */
  lemma {:induction false} CanonicalRoom(sensitive: Sensitive, v: Json)
    requires AllTextsShown(v) && Canonicalize(sensitive, v).Some?
    ensures var c := Canonicalize(sensitive, v).value; AllTextsShown(c) && Room(c) == Room(v)
    decreases v, 1
  {
    match v {
      case Array(items) => CanonicalItemsRoom(sensitive, items);
      case Object(ms) =>
        CanonicalMembersRoom(sensitive, ms);
        var cs := CanonicalizeMembers(sensitive, ms).value;
        SortRoom(cs);
        forall i | 0 <= i < |Sort(cs)| ensures ShownMember(Sort(cs)[i]) { assert Sort(cs)[i] in cs; }
      case _ =>
    }
  }

  lemma {:induction false} CanonicalItemsRoom(sensitive: Sensitive, items: seq<Json>)
    requires (forall i :: 0 <= i < |items| ==> AllTextsShown(items[i])) && CanonicalizeItems(sensitive, items).Some?
    ensures var cs := CanonicalizeItems(sensitive, items).value;
            (forall i :: 0 <= i < |cs| ==> AllTextsShown(cs[i])) && ItemsRoom(cs) == ItemsRoom(items)
    decreases items, 0
  {
    if items != [] {
      CanonicalRoom(sensitive, items[0]);
      CanonicalItemsRoom(sensitive, items[1..]);
      assert CanonicalizeItems(sensitive, items).value[1..] == CanonicalizeItems(sensitive, items[1..]).value;
    }
  }

  lemma {:induction false} CanonicalMembersRoom(sensitive: Sensitive, ms: seq<Member>)
    requires (forall i :: 0 <= i < |ms| ==> ShownMember(ms[i])) && CanonicalizeMembers(sensitive, ms).Some?
    ensures var cs := CanonicalizeMembers(sensitive, ms).value;
            (forall i :: 0 <= i < |cs| ==> ShownMember(cs[i])) && MembersRoom(cs) == MembersRoom(ms)
    decreases ms, 0
  {
    if ms != [] {
      CanonicalRoom(sensitive, ms[0].value);
      CanonicalMembersRoom(sensitive, ms[1..]);
      assert CanonicalizeMembers(sensitive, ms).value[1..] == CanonicalizeMembers(sensitive, ms[1..]).value;
    }
  }

  lemma {:induction false} CanonicalTextRoom(sensitive: Sensitive, v: Json)
    requires AllTextsShown(v) && CanonicalJson(sensitive, v).Some?
    ensures |Utf8(CanonicalJson(sensitive, v).value)| <= Room(v)
  {
    CanonicalRoom(sensitive, v);
    PrintedRoom(Canonicalize(sensitive, v).value);
    AsciiBytes(CanonicalJson(sensitive, v).value);
  }

  lemma {:induction false} SevenRooms(ms: seq<Member>)
    requires |ms| == 7
    ensures MembersRoom(ms) == MemberRoom(ms[0]) + MemberRoom(ms[1]) + MemberRoom(ms[2]) + MemberRoom(ms[3]) +
                               MemberRoom(ms[4]) + MemberRoom(ms[5]) + MemberRoom(ms[6])
  {
    ThreeRooms(ms[4..]);
    assert MembersRoom(ms[3..]) == MemberRoom(ms[3]) + MembersRoom(ms[4..]) by { assert ms[3..][1..] == ms[4..]; }
    assert MembersRoom(ms[2..]) == MemberRoom(ms[2]) + MembersRoom(ms[3..]) by { assert ms[2..][1..] == ms[3..]; }
    assert MembersRoom(ms[1..]) == MemberRoom(ms[1]) + MembersRoom(ms[2..]) by { assert ms[1..][1..] == ms[2..]; }
  }

  lemma {:induction false} ThreeRooms(ms: seq<Member>)
    requires |ms| == 3
    ensures MembersRoom(ms) == MemberRoom(ms[0]) + MemberRoom(ms[1]) + MemberRoom(ms[2])
  {
    var one := [ms[2]];
    assert MembersRoom(one) == MemberRoom(ms[2]) by { assert one[1..] == []; }
    assert MembersRoom(ms[1..]) == MemberRoom(ms[1]) + MembersRoom(one) by { assert ms[1..][1..] == one; }
  }

  lemma {:induction false} ResponseShown(n: Names, keyId: Text, hash: Text, requestHash: Text, signature: Text)
    requires Named(n)
    requires IsSafeReference(keyId) && IsDigest(hash) && IsDigest(requestHash) && IsSignature(signature)
    ensures AllTextsShown(Response(n, keyId, hash, requestHash, signature))
  {
    assert AllShown(keyId) && AllShown(hash) && AllShown(requestHash) && AllShown(signature);
  }

  lemma {:induction false} ResponseRoom(n: Names, keyId: Text, hash: Text, requestHash: Text, signature: Text)
    requires Named(n)
    requires |keyId| <= 256 && |hash| == |requestHash| == 64 && |signature| == 88
    ensures Room(Response(n, keyId, hash, requestHash, signature)) <= 805
  {
    SevenRooms(Response(n, keyId, hash, requestHash, signature).members);
  }

  /** An answer never exceeds its limit: for every admissible key id it has at most 805 bytes. */
  lemma {:induction false} ResponseFits(
    n: Names, sensitive: Sensitive, keyId: Text, hash: Text, requestHash: Text, signature: Text)
    requires Named(n)
    requires IsSafeReference(keyId) && IsDigest(hash) && IsDigest(requestHash) && IsSignature(signature)
    requires CanonicalJson(sensitive, Response(n, keyId, hash, requestHash, signature)).Some?
    ensures |Utf8(CanonicalJson(sensitive,
            Response(n, keyId, hash, requestHash, signature)).value)| <= 805 < MAX_RESPONSE_BYTES
  {
    ResponseShown(n, keyId, hash, requestHash, signature);
    ResponseRoom(n, keyId, hash, requestHash, signature);
    CanonicalTextRoom(sensitive, Response(n, keyId, hash, requestHash, signature));
  }

  lemma {:induction false} ResponseKeysDiffer(n: Names, keyId: Text, hash: Text, requestHash: Text, signature: Text)
    requires Distinct(n)
    ensures var ms := Response(n, keyId, hash, requestHash, signature).members;
            && |ms| == 7 && DistinctKeys(ms)
            && ms[0].key == n.protocolVersion && ms[1].key == n.purpose && ms[2].key == n.runtimeConnection &&
               ms[3].key == n.signature
            && ms[4].key == n.signerKeyId && ms[5].key == n.requestHash && ms[6].key == n.payloadHash
  {
  }

  lemma {:induction false} ResponseFields(n: Names, keyId: Text, hash: Text, requestHash: Text, signature: Text)
    requires Distinct(n)
    ensures var v := Response(n, keyId, hash, requestHash, signature);
            && WellKeyed(v) && Field(v, n.protocolVersion) == Some(Integer(1)) &&
               HasText(v, n.purpose, n.responsePurpose)
            && HasText(v, n.runtimeConnection, n.notConfigured) && HasText(v, n.signature, signature) &&
               HasText(v, n.signerKeyId, keyId)
            && HasText(v, n.requestHash, requestHash) && HasText(v, n.payloadHash, hash)
  {
    ResponseKeysDiffer(n, keyId, hash, requestHash, signature);
    FindEach(Response(n, keyId, hash, requestHash, signature).members);
  }

  lemma {:induction false} ResponseExact(n: Names, keyId: Text, hash: Text, requestHash: Text, signature: Text)
    requires Distinct(n)
    ensures Messages.Exact(Response(n, keyId, hash, requestHash, signature), ResponseKeys(n))
  {
    ResponseFields(n, keyId, hash, requestHash, signature);
    AllFound(Response(n, keyId, hash, requestHash, signature), n.protocolVersion, n.purpose, n.runtimeConnection,
      n.signature,
             n.signerKeyId, n.requestHash, n.payloadHash);
  }

  lemma {:induction false} ResponseMatchesCanonically(
    n: Names, rules: Rules, keyId: Text, hash: Text, requestHash: Text, signature: Text)
    requires Distinct(n)
    requires Canonicalize(rules.sensitive, Response(n, keyId, hash, requestHash, signature)).Some?
    ensures var c := Canonicalize(rules.sensitive, Response(n, keyId, hash, requestHash, signature)).value;
            ResponseMatches(n, rules, keyId, hash, requestHash, c) && HasText(c, n.signature, signature)
  {
    var v := Response(n, keyId, hash, requestHash, signature);
    ResponseFields(n, keyId, hash, requestHash, signature);
    ResponseExact(n, keyId, hash, requestHash, signature);
    ExactOfCanonical(rules.sensitive, v, ResponseKeys(n));
    ScalarOfCanonical(rules.sensitive, v, n.protocolVersion, Integer(1));
    ScalarOfCanonical(rules.sensitive, v, n.purpose, String(n.responsePurpose));
    ScalarOfCanonical(rules.sensitive, v, n.runtimeConnection, String(n.notConfigured));
    ScalarOfCanonical(rules.sensitive, v, n.signature, String(signature));
    ScalarOfCanonical(rules.sensitive, v, n.signerKeyId, String(keyId));
    ScalarOfCanonical(rules.sensitive, v, n.requestHash, String(requestHash));
    ScalarOfCanonical(rules.sensitive, v, n.payloadHash, String(hash));
  }

  /** A flat object of at most 64 scalars is inert. */
  lemma {:induction false} FlatInert(ms: seq<Member>)
    requires |ms| <= MAX_MEMBERS && forall i :: 0 <= i < |ms| ==> ms[i].value.String? || ms[i].value == Integer(1)
    ensures Shallow(Object(ms), 0) && Inert(Object(ms), 0, 0).Some?
  {
    ScalarNodes(ms);
    InertExact(Object(ms), 0, 0);
  }

  lemma {:induction false} ResponseInert(
    n: Names, sensitive: Sensitive, keyId: Text, hash: Text, requestHash: Text, signature: Text)
    requires Canonicalize(sensitive, Response(n, keyId, hash, requestHash, signature)).Some?
    ensures Inert(Canonicalize(sensitive, Response(n, keyId, hash, requestHash, signature)).value, 0, 0).Some?
  {
    FlatInert(Response(n, keyId, hash, requestHash, signature).members);
    InertOfCanonical(sensitive, Response(n, keyId, hash, requestHash, signature));
  }

  /** base64 of 64 bytes is a signature text, and decodes to those bytes. */
  ghost predicate FairBase64(rules: Rules)
  {
    forall b: Bytes :: |b| == 64 ==> IsSignature(rules.base64(b)) && rules.unbase64(rules.base64(b)) == b
  }

  /** The signer takes the signature of an answer whose text and value meet its checks. */
  lemma {:induction false} AnswerReads(
    n: Names, rules: Rules, keyId: Text, s: Sending, t: Text, v: Json, signature: Text)
    requires 2 <= |Utf8(t)| <= MAX_RESPONSE_BYTES && DecodeText(Utf8(t)) == Some(t) && Parse(t) == Some(v)
    requires Inert(v, 0, 0).Some? && CanonicalJson(rules.sensitive, v) == Some(t)
    requires ResponseMatches(n, rules, keyId, s.hash, s.requestHash, v) && HasText(v, n.signature, signature)
    requires IsSignature(signature) && |rules.unbase64(signature)| == 64 &&
             rules.base64(rules.unbase64(signature)) == signature
    ensures SignerReads(n, rules, keyId, s, Utf8(t)) == Some(signature)
  {
  }

  /**
   * The handler answers every custody signature unless canonical JSON rejects a text of the answer,
   * its limit never denies one, and the signer takes exactly that signature from the answer.
   */
  lemma {:induction false} AnswerIsTaken(n: Names, rules: Rules, keyId: Text, s: Sending, c: Custody, signature: Bytes)
    requires Proper(n)
    requires FairBase64(rules) && IsSafeReference(keyId) && |signature| == 64
    requires c.hash == s.hash && c.requestHash == s.requestHash && IsDigest(c.hash) && IsDigest(c.requestHash)
    ensures HandlerAnswers(n, rules, keyId, c, signature).None? <==>
            CanonicalJson(rules.sensitive, Response(n, keyId, c.hash, c.requestHash, rules.base64(signature))).None?
    ensures match HandlerAnswers(n, rules, keyId, c, signature)
            case None => true
            case Some(b) => SignerReads(n, rules, keyId, s, b) == Some(rules.base64(signature))
  {
    var text := rules.base64(signature);
    var v := Response(n, keyId, c.hash, c.requestHash, text);
    if CanonicalJson(rules.sensitive, v).Some? {
      ResponseFits(n, rules.sensitive, keyId, c.hash, c.requestHash, text);
      ResponseFields(n, keyId, c.hash, c.requestHash, text);
      CanonicalReadsBack(rules.sensitive, v);
      ResponseMatchesCanonically(n, rules, keyId, c.hash, c.requestHash, text);
      ResponseInert(n, rules.sensitive, keyId, c.hash, c.requestHash, text);
      AnswerReads(n, rules, keyId, s, CanonicalJson(rules.sensitive, v).value, Canonicalize(rules.sensitive, v).value,
        text);
    }
  }

  // ----- end to end -----

  /** What comes of a payload: the signature that reaches the controller. */
  function Issue(n: Names, rules: Rules, keyId: Text, hash: Text, payload: Json): (signature: Option<Text>)
  {
    match SignerSends(n, rules, keyId, SigningRequest(n, keyId, hash, payload))
    case None => None
    case Some(s) =>
      match HandlerReads(n, rules, keyId, s.bytes)
      case None => None
      case Some(c) =>
        match HandlerAnswers(n, rules, keyId, c, rules.sign(c.bytes))
        case None => None
        case Some(b) => SignerReads(n, rules, keyId, s, b)
  }

  /**
   * For every payload that is issued, the authenticator verifies the very bytes custody signed, so
   * it accepts the published snapshot; and the hash it keeps is the controller's.
   */
  lemma {:induction false} IssuedSnapshotVerifies(
    n: Names, rules: Rules, keyId: Text, hash: Text, payload: Json, snapshot: Json)
    requires Proper(n)
    requires WellKeyed(payload) && IsSafeReference(keyId) && FairBase64(rules) &&
             (forall t :: IsDigest(rules.sha256(t)))
    requires forall b :: |rules.sign(b)| == 64 && rules.verify(b, rules.sign(b))
    requires Issue(n, rules, keyId, hash, payload).Some? && payload.Object?
    requires snapshot.Object? && WellKeyed(snapshot) &&
             Same(snapshot, Published(n, payload, Issue(n, rules, keyId, hash, payload).value))
    ensures var signature := Issue(n, rules, keyId, hash, payload).value;
            && VerifiedBytes(n, rules, snapshot).Some? &&
               rules.verify(VerifiedBytes(n, rules, snapshot).value, rules.unbase64(signature))
            && HashOf(rules, Object(Without(snapshot.members, n.signature))) == Some(hash)
  {
    CustodyGetsThePayload(n, rules, keyId, hash, payload);
    var s := SignerSends(n, rules, keyId, SigningRequest(n, keyId, hash, payload)).value;
    var c := HandlerReads(n, rules, keyId, s.bytes).value;
    AnswerIsTaken(n, rules, keyId, s, c, rules.sign(c.bytes));
    var signature := Issue(n, rules, keyId, hash, payload).value;
    PayloadAsked(n, rules, keyId, hash, payload);
    VerifiedIsPayload(n, rules, keyId, payload, signature, snapshot);
  }

  lemma {:induction false} PayloadAsked(n: Names, rules: Rules, keyId: Text, hash: Text, payload: Json)
    requires Distinct(n)
    requires SignerSends(n, rules, keyId, SigningRequest(n, keyId, hash, payload)).Some?
    ensures IsPayload(n, payload, keyId)
  {
    RequestFields(n, keyId, hash, payload);
  }
}
