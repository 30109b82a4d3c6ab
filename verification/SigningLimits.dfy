/**
 * What the signing messages' limits mean for payloads: one that slips between two of them, and all the
 * controller builds.
 */
module SigningLimits {
  import opened Outcomes
  import opened Texts
  import opened Json
  import opened Canonical
  import opened InertJson
  import opened SigningChain

  // ----- values that canonicalization accepts -----

  /** Bounded, with safe numbers and field names. */
  ghost predicate Tame(v: Json)
  {
    match v
    case NonInteger => false
    case Integer(n) => IsSafeInteger(n)
    case String(s) => |s| <= MAX_STRING
    case Array(items) => |items| <= MAX_ITEMS && forall i :: 0 <= i < |items| ==> Tame(items[i])
    case Object(ms) => |ms| <= MAX_MEMBERS && forall i :: 0 <= i < |ms| ==> IsFieldName(ms[i].key) && Tame(ms[i].value)
    case _ => true
  }

  /** If no text is sensitive, every tame value has a canonical form. */
  lemma {:induction false} TameIsAccepted(sensitive: Sensitive, v: Json)
    requires Tame(v) && forall t :: !sensitive(t)
    ensures Canonicalize(sensitive, v).Some?
    decreases v
  {
    match v {
      case Array(items) =>
        forall i | 0 <= i < |items| ensures Canonicalize(sensitive, items[i]).Some? {
          TameIsAccepted(sensitive, items[i]);
        }
        ItemsPointwise(sensitive, items);
      case Object(ms) =>
        forall i | 0 <= i < |ms| ensures MemberAllowed(sensitive, ms[i]) { TameIsAccepted(sensitive, ms[i].value); }
        MembersPointwise(sensitive, ms);
      case _ =>
    }
  }

  // ----- a payload that slips between the limits -----

  const ROWS: nat := 10
  const COLUMNS: nat := 202

  /** What the rows are filled with. */
  predicate IsCell(cell: Json) { cell == Null || cell == Integer(1) }

  function Row(cell: Json): Json { Array(seq(COLUMNS, i => cell)) }

  function Rows(cell: Json): Json { Array(seq(ROWS, i => Row(cell))) }

  /** The field values in the order of the payload's keys. */
  function CrowdedValues(n: Names, keyId: Text, cell: Json): (vs: seq<Json>)
    ensures |vs| == 11
  {
    [String(n.ed25519), Rows(cell), String([97]), String(ZeroDigest()), String(n.authorization), Integer(1),
      String(keyId),
     String([97]), Integer(1), String([97]), String([97])]
  }

  /** A payload with exactly the payload's keys, whose `authorizations` are rows of cells. */
  function CrowdedPayload(n: Names, keyId: Text, cell: Json): (v: Json)
  {
    Object(seq(11, i requires 0 <= i < 11 => Member(PayloadKeys(n)[i], CrowdedValues(n, keyId, cell)[i])))
  }

  lemma {:induction false} AllNames(k: seq<Text>)
    requires |k| == 11 && IsShortName(k[0]) && IsShortName(k[1]) && IsShortName(k[2]) && IsShortName(k[3]) &&
             IsShortName(k[4])
    requires IsShortName(k[5]) && IsShortName(k[6]) && IsShortName(k[7]) && IsShortName(k[8]) && IsShortName(k[9]) &&
             IsShortName(k[10])
    ensures forall i :: 0 <= i < 11 ==> IsShortName(k[i])
  {
  }

  lemma {:induction false} PayloadNames(n: Names)
    requires Named(n)
    ensures forall i :: 0 <= i < 11 ==> IsShortName(PayloadKeys(n)[i])
  {
    AllNames(PayloadKeys(n));
  }

  lemma {:induction false} EvenNodes(items: seq<Json>, k: nat)
    requires forall i :: 0 <= i < |items| ==> PayloadWalk.Nodes(items[i]) == k
    ensures PayloadWalk.ItemNodes(items) == |items| * k
  {
    if items != [] {
      EvenNodes(items[1..], k);
      assert |items| * k == k + (|items| - 1) * k;
    }
  }

  lemma {:induction false} RowsHave2031Nodes(cell: Json)
    requires IsCell(cell)
    ensures PayloadWalk.Nodes(Rows(cell)) == 2_031
  {
    EvenNodes(Row(cell).items, 1);
    assert PayloadWalk.Nodes(Row(cell)) == 203;
    EvenNodes(Rows(cell).items, 203);
  }

  lemma {:induction false} CrowdedShape(n: Names, keyId: Text, cell: Json)
    requires IsCell(cell)
    ensures var ms := CrowdedPayload(n, keyId, cell).members;
            && |ms| == 11 && ms[1].value == Rows(cell)
            && forall i :: 0 <= i < 11 && i != 1 ==> ms[i].value.String? || ms[i].value == Integer(1)
  {
    var ms := CrowdedPayload(n, keyId, cell).members;
    assert forall i :: 0 <= i < 11 ==> ms[i].value == CrowdedValues(n, keyId, cell)[i];
  }

  lemma {:induction false} CrowdedHas2042Nodes(n: Names, keyId: Text, cell: Json)
    requires IsCell(cell)
    ensures PayloadWalk.Nodes(CrowdedPayload(n, keyId, cell)) == 2_042
  {
    RowsHave2031Nodes(cell);
    CrowdedShape(n, keyId, cell);
    NodesAround(CrowdedPayload(n, keyId, cell).members, 1);
  }

  lemma {:induction false} NodesAround(ms: seq<Member>, k: nat)
    requires k < |ms| && forall i :: 0 <= i < |ms| && i != k ==>
             ms[i].value.String? || ms[i].value.Integer? ||
             ms[i].value.Null?
    ensures PayloadWalk.Nodes(Object(ms)) == |ms| + PayloadWalk.Nodes(ms[k].value)
  {
    AroundNodes(ms, k);
  }

  lemma {:induction false} RowsShape(cell: Json)
    requires IsCell(cell)
    ensures Tame(Rows(cell)) && WellKeyed(Rows(cell)) && Shallow(Rows(cell), 2) && AllTextsShown(Rows(cell))
  {
    assert Tame(Row(cell)) && WellKeyed(Row(cell)) && Shallow(Row(cell), 3) && AllTextsShown(Row(cell));
  }

  lemma {:induction false} CrowdedKeys(n: Names, keyId: Text, cell: Json)
    requires Distinct(n)
    requires IsCell(cell)
    ensures var ms := CrowdedPayload(n, keyId, cell).members;
            && DistinctKeys(ms) && forall i :: 0 <= i < 11 ==>
               Find(ms, PayloadKeys(n)[i]) == Some(CrowdedValues(n, keyId, cell)[i])
  {
    var ms := CrowdedPayload(n, keyId, cell).members;
    PayloadKeysDiffer(n);
    forall i | 0 <= i < 11 ensures Find(ms, PayloadKeys(n)[i]) == Some(CrowdedValues(n, keyId, cell)[i]) {
      FindAt(ms, i);
    }
  }

  lemma {:induction false} CrowdedIsPayload(n: Names, keyId: Text, cell: Json)
    requires Distinct(n)
    requires IsCell(cell)
    ensures IsPayload(n, CrowdedPayload(n, keyId, cell), keyId) && WellKeyed(CrowdedPayload(n, keyId, cell))
  {
    CrowdedKeys(n, keyId, cell);
    CrowdedShape(n, keyId, cell);
    RowsShape(cell);
    var keys := PayloadKeys(n);
    assert keys[0] == n.algorithm && keys[4] == n.purpose && keys[5] == n.schemaVersion && keys[6] == n.signerKeyId;
    ElevenFound(CrowdedPayload(n, keyId, cell), PayloadKeys(n));
  }

  lemma {:induction false} ElevenFound(v: Json, keys: seq<Text>)
    requires v.Object? && |v.members| == |keys| == 11 && forall i :: 0 <= i < 11 ==> Find(v.members, keys[i]).Some?
    ensures Messages.Exact(v, keys)
  {
  }

  // ----- the crowded payload's messages -----

  /** A value that is accepted, shown as it is and short. */
  ghost predicate Small(v: Json) { Tame(v) && AllTextsShown(v) && Room(v) <= 258 }

  lemma {:induction false} SmallText(t: Text)
    requires AllShown(t) && |t| <= 256
    ensures Small(String(t))
  {
  }

  lemma {:induction false} AllSmall(vs: seq<Json>)
    requires |vs| == 11 && Small(vs[0]) && Small(vs[2]) && Small(vs[3]) && Small(vs[4]) && Small(vs[5])
    requires Small(vs[6]) && Small(vs[7]) && Small(vs[8]) && Small(vs[9]) && Small(vs[10])
    ensures forall i :: 0 <= i < 11 && i != 1 ==> Small(vs[i])
  {
  }

  lemma {:induction false} CrowdedTexts(n: Names, keyId: Text, cell: Json)
    requires Named(n)
    requires IsCell(cell)
    requires IsSafeReference(keyId)
    ensures forall i :: 0 <= i < 11 && i != 1 ==> Small(CrowdedValues(n, keyId, cell)[i])
  {
    SmallText(n.ed25519);
    SmallText(n.authorization);
    SmallText(keyId);
    SmallText([97]);
    SmallText(ZeroDigest());
    assert Small(Integer(1));
    AllSmall(CrowdedValues(n, keyId, cell));
  }

  lemma {:induction false} CrowdedIsTame(n: Names, keyId: Text, cell: Json)
    requires Named(n)
    requires IsCell(cell)
    requires IsSafeReference(keyId)
    ensures Tame(CrowdedPayload(n, keyId, cell)) && AllTextsShown(CrowdedPayload(n, keyId, cell)) &&
            Shallow(CrowdedPayload(n, keyId, cell), 1)
  {
    var ms := CrowdedPayload(n, keyId, cell).members;
    CrowdedTexts(n, keyId, cell);
    CrowdedShape(n, keyId, cell);
    RowsShape(cell);
    PayloadNames(n);
    forall i | 0 <= i < 11 ensures IsFieldName(ms[i].key) && Tame(ms[i].value) && ShownMember(ms[i]) &&
      Shallow(ms[i].value, 2) {
      assert ms[i] == Member(PayloadKeys(n)[i], CrowdedValues(n, keyId, cell)[i]);
    }
  }

  lemma {:induction false} EvenRoom(items: seq<Json>, k: nat)
    requires forall i :: 0 <= i < |items| ==> Room(items[i]) == k
    ensures ItemsRoom(items) == |items| * (k + 1)
  {
    if items != [] {
      EvenRoom(items[1..], k);
      assert |items| * (k + 1) == (k + 1) + (|items| - 1) * (k + 1);
    }
  }

  lemma {:induction false} RowsRoom(cell: Json)
    requires IsCell(cell)
    ensures Room(Rows(cell)) == 12_152
  {
    EvenRoom(Row(cell).items, 5);
    assert Room(Row(cell)) == 1_214;
    EvenRoom(Rows(cell).items, 1_214);
  }

  lemma {:induction false} RoomAtMost(ms: seq<Member>, k: nat, most: nat)
    requires k <= |ms| && forall i :: 0 <= i < |ms| && i != k ==> MemberRoom(ms[i]) <= most
    ensures MembersRoom(ms) <= |ms| * most + if k < |ms| then MemberRoom(ms[k]) else 0
  {
    if ms != [] {
      assert |ms| * most == most + (|ms| - 1) * most;
      if k == 0 {
        RoomAtMost(ms[1..], |ms| - 1, most);
      } else {
        RoomAtMost(ms[1..], k - 1, most);
      }
    }
  }

  lemma {:induction false} RoomOfFields(ms: seq<Member>, keys: seq<Text>, values: seq<Json>, k: nat)
    requires |ms| == |keys| == |values| == 11 && k < 11
    requires forall i :: 0 <= i < 11 ==> ms[i] == Member(keys[i], values[i]) && |keys[i]| <= 20
    requires forall i :: 0 <= i < 11 && i != k ==> Room(values[i]) <= 258
    ensures Room(Object(ms)) <= 3_128 + Room(values[k])
  {
    forall i | 0 <= i < 11 && i != k ensures MemberRoom(ms[i]) <= 282 { assert ms[i] == Member(keys[i], values[i]); }
    assert MemberRoom(ms[k]) <= 24 + Room(values[k]);
    RoomAtMost(ms, k, 282);
  }

  lemma {:induction false} CrowdedFields(n: Names, keyId: Text, cell: Json)
    requires Named(n)
    requires IsCell(cell)
    requires IsSafeReference(keyId)
    ensures var ms := CrowdedPayload(n, keyId, cell).members;
            && |ms| == 11 && |Keys(ms)| == 11 && (forall i :: 0 <= i < 11 ==> |Keys(ms)[i]| <= 20)
            && forall i :: 0 <= i < 11 ==> ms[i] == Member(Keys(ms)[i], CrowdedValues(n, keyId, cell)[i])
  {
    PayloadNames(n);
    var ms := CrowdedPayload(n, keyId, cell).members;
    forall i | 0 <= i < 11 ensures |Keys(ms)[i]| <= 20 &&
      ms[i] == Member(Keys(ms)[i], CrowdedValues(n, keyId, cell)[i]) {
      assert Keys(ms)[i] == PayloadKeys(n)[i];
    }
  }

  lemma {:induction false} RoomOfCrowd(payload: Json, keys: seq<Text>, values: seq<Json>)
    requires payload.Object? && |payload.members| == |keys| == |values| == 11
    requires forall i :: 0 <= i < 11 ==> payload.members[i] == Member(keys[i], values[i]) && |keys[i]| <= 20
    requires (forall i :: 0 <= i < 11 && i != 1 ==> Room(values[i]) <= 258) && Room(values[1]) == 12_152
    ensures Room(payload) <= 16_000
  {
    RoomOfFields(payload.members, keys, values, 1);
  }

  lemma {:induction false} CrowdedRooms(n: Names, keyId: Text, cell: Json)
    requires Named(n)
    requires IsCell(cell)
    requires IsSafeReference(keyId)
    ensures forall i :: 0 <= i < 11 && i != 1 ==> Room(CrowdedValues(n, keyId, cell)[i]) <= 258
    ensures Room(CrowdedValues(n, keyId, cell)[1]) == 12_152
  {
    CrowdedTexts(n, keyId, cell);
    RowsRoom(cell);
  }

  lemma {:induction false} CrowdedRoom(n: Names, keyId: Text, cell: Json)
    requires Named(n)
    requires IsCell(cell)
    requires IsSafeReference(keyId)
    ensures Room(CrowdedPayload(n, keyId, cell)) <= 16_000
  {
    CrowdedRooms(n, keyId, cell);
    CrowdedFields(n, keyId, cell);
    RoomOfCrowd(CrowdedPayload(n, keyId, cell), Keys(CrowdedPayload(n, keyId, cell).members),
      CrowdedValues(n, keyId, cell));
  }

  lemma {:induction false} EnvelopeTame(n: Names, keyId: Text, hash: Text, payload: Json, requestHash: Text)
    requires Named(n)
    requires Tame(payload) && IsSafeReference(keyId) && IsDigest(hash) && IsDigest(requestHash)
    ensures Tame(Binding(n, keyId, hash, payload)) && Tame(Envelope(n, keyId, hash, payload, requestHash))
  {
  }

  lemma {:induction false} EnvelopeTexts(n: Names, keyId: Text, hash: Text, payload: Json, requestHash: Text)
    requires Named(n)
    requires AllTextsShown(payload) && IsSafeReference(keyId) && IsDigest(hash) && IsDigest(requestHash)
    ensures AllTextsShown(Envelope(n, keyId, hash, payload, requestHash))
  {
    assert AllShown(keyId) && AllShown(hash) && AllShown(requestHash);
  }

  lemma {:induction false} TextRoom(key: Text, t: Text)
    ensures MemberRoom(Member(key, String(t))) == |key| + |t| + 6
  {
  }

  lemma {:induction false} EnvelopeRoom(n: Names, keyId: Text, hash: Text, payload: Json, requestHash: Text)
    requires Named(n)
    requires |keyId| <= 256 && |hash| == |requestHash| == 64
    ensures Room(Envelope(n, keyId, hash, payload, requestHash)) <= 2_500 + Room(payload)
  {
    var ms := Envelope(n, keyId, hash, payload, requestHash).members;
    TextRoom(n.purpose, n.requestPurpose);
    TextRoom(n.signerKeyId, keyId);
    TextRoom(n.payloadHash, hash);
    TextRoom(n.runtimeConnection, n.notConfigured);
    TextRoom(n.requestHash, requestHash);
    SevenRooms(ms);
  }

  // ----- the gap -----

  /** A host to which no text is sensitive; its hash is constant. */
  function SampleRules(): Rules
  {
    Rules((t: Text) => false, (t: Text) => ZeroDigest(), (b: Bytes) => [], (b: Bytes, s: Bytes) => true, (b: Bytes) =>
      [], (t: Text) => [])
  }

  /** The signer sends a request that it can read and whose three texts are canonical and short. */
  lemma {:induction false} SignerSendsReadable(
    n: Names, rules: Rules, keyId: Text, hash: Text, payload: Json, requestHash: Text)
    requires ReadRequest(n, rules, keyId, SigningRequest(n, keyId, hash, payload)) == Some((hash, payload))
    requires HashOf(rules, Binding(n, keyId, hash, payload)) == Some(requestHash)
    requires var t := CanonicalJson(rules.sensitive, Envelope(n, keyId, hash, payload, requestHash));
             t.Some? && |Utf8(t.value)| <= MAX_REQUEST_BYTES
    ensures SignerSends(n, rules, keyId, SigningRequest(n, keyId, hash, payload)).Some?
  {
  }

  lemma {:induction false} FiveFound(v: Json, a: Text, b: Text, c: Text, d: Text, e: Text)
    requires v.Object? && |v.members| == 5
    requires Field(v, a).Some? && Field(v, b).Some? && Field(v, c).Some? && Field(v, d).Some? && Field(v, e).Some?
    ensures Messages.Exact(v, [a, b, c, d, e])
  {
  }

  lemma {:induction false} RequestScalars(n: Names, keyId: Text, hash: Text, payload: Json)
    requires Distinct(n)
    ensures var v := SigningRequest(n, keyId, hash, payload);
            Field(v, n.schemaVersion) == Some(Integer(1)) && HasText(v, n.purpose, n.snapshot) &&
              HasText(v, n.signerKeyId, keyId)
  {
    var ms := SigningRequest(n, keyId, hash, payload).members;
    RequestKeysDiffer(n, keyId, hash, payload);
    FindAt(ms, 0);
    FindAt(ms, 1);
    FindAt(ms, 2);
  }

  lemma {:induction false} RequestIsExact(n: Names, keyId: Text, hash: Text, payload: Json)
    requires Distinct(n)
    ensures Messages.Exact(SigningRequest(n, keyId, hash, payload), RequestKeys(n))
  {
    RequestScalars(n, keyId, hash, payload);
    RequestFields(n, keyId, hash, payload);
    FiveFound(SigningRequest(n, keyId, hash, payload), n.payload, n.purpose, n.schemaVersion, n.signerKeyId,
      n.payloadHash);
  }

  /** Every payload that fits the request is read from it. */
  lemma {:induction false} RequestIsRead(n: Names, rules: Rules, keyId: Text, hash: Text, payload: Json)
    requires Distinct(n)
    requires IsPayload(n, payload, keyId) && IsDigest(hash) && HashOf(rules, payload) == Some(hash)
    requires Shallow(payload, 1) && PayloadWalk.Nodes(payload) + 5 <= MAX_JSON_NODES
    ensures ReadRequest(n, rules, keyId, SigningRequest(n, keyId, hash, payload)) == Some((hash, payload))
  {
    RequestFields(n, keyId, hash, payload);
    RequestInert(n, keyId, hash, payload);
    RequestScalars(n, keyId, hash, payload);
    RequestIsExact(n, keyId, hash, payload);
  }

  lemma {:induction false} CrowdedIsSent(n: Names, keyId: Text, cell: Json)
    requires Proper(n)
    requires IsCell(cell)
    requires IsSafeReference(keyId)
    ensures SignerSends(n, SampleRules(), keyId,
            SigningRequest(n, keyId, ZeroDigest(), CrowdedPayload(n, keyId, cell))).Some?
  {
    var rules, payload, zero := SampleRules(), CrowdedPayload(n, keyId, cell), ZeroDigest();
    CrowdedIsPayload(n, keyId, cell);
    CrowdedIsTame(n, keyId, cell);
    CrowdedHas2042Nodes(n, keyId, cell);
    TameIsAccepted(rules.sensitive, payload);
    RequestIsRead(n, rules, keyId, zero, payload);
    EnvelopeTame(n, keyId, zero, payload, zero);
    TameIsAccepted(rules.sensitive, Binding(n, keyId, zero, payload));
    TameIsAccepted(rules.sensitive, Envelope(n, keyId, zero, payload, zero));
    EnvelopeTexts(n, keyId, zero, payload, zero);
    EnvelopeRoom(n, keyId, zero, payload, zero);
    CrowdedRoom(n, keyId, cell);
    CanonicalTextRoom(rules.sensitive, Envelope(n, keyId, zero, payload, zero));
    SignerSendsReadable(n, rules, keyId, zero, payload, zero);
  }

  /** The gap is real: the signer sends a payload of 2042 nodes, and the handler refuses it. */
  lemma {:induction false} CrowdedPayloadIsSentAndRefused(n: Names, keyId: Text, cell: Json)
    requires Proper(n)
    requires IsCell(cell)
    requires IsSafeReference(keyId)
    ensures var sent := SignerSends(n, SampleRules(), keyId,
            SigningRequest(n, keyId, ZeroDigest(), CrowdedPayload(n, keyId, cell)));
            sent.Some? && HandlerReads(n, SampleRules(), keyId, sent.value.bytes) == None
  {
    CrowdedIsSent(n, keyId, cell);
    CrowdedIsPayload(n, keyId, cell);
    CrowdedHas2042Nodes(n, keyId, cell);
    CustodyGetsThePayload(n, SampleRules(), keyId, ZeroDigest(), CrowdedPayload(n, keyId, cell));
  }

  // ----- what the controller builds -----

  /** An authorization as the controller builds it: 23 scalar fields. */
  predicate IsAuthorization(v: Json)
  {
    v.Object? && |v.members| == 23 && forall i :: 0 <= i < 23 ==>
      v.members[i].value.String? ||
      v.members[i].value.Integer?
  }

  /** A payload as the controller builds it: scalars around at most two authorizations. */
  predicate IsBuilt(ms: seq<Member>, k: nat)
  {
    && |ms| == 11 && k < 11 && ms[k].value.Array? && |ms[k].value.items| <= 2
    && (forall i :: 0 <= i < |ms[k].value.items| ==> IsAuthorization(ms[k].value.items[i]))
    && forall i :: 0 <= i < 11 && i != k ==> ms[i].value.String? || ms[i].value.Integer? || ms[i].value.Null?
  }

  lemma {:induction false} AuthorizationNodes(v: Json)
    requires IsAuthorization(v)
    ensures PayloadWalk.Nodes(v) == 24
  {
    ScalarNodes(v.members);
  }

  /** A built payload has at most 60 nodes, far from any limit: whatever the signer sends of it, custody gets. */
  lemma {:induction false} BuiltPayloadReachesCustody(
    n: Names, rules: Rules, keyId: Text, hash: Text, payload: Json, k: nat)
    requires Distinct(n)
    requires WellKeyed(payload) && payload.Object? && IsBuilt(payload.members, k) &&
             forall t :: IsDigest(rules.sha256(t))
    ensures PayloadWalk.Nodes(payload) <= 60
    ensures match SignerSends(n, rules, keyId, SigningRequest(n, keyId, hash, payload))
            case None => true
            case Some(s) =>
              match CanonicalJson(rules.sensitive, payload)
              case None => false
              case Some(t) => HandlerReads(n, rules, keyId, s.bytes) == Some(Custody(hash, s.requestHash, Utf8(t)))
  {
    var items := payload.members[k].value.items;
    forall i | 0 <= i < |items| ensures PayloadWalk.Nodes(items[i]) == 24 { AuthorizationNodes(items[i]); }
    EvenNodes(items, 24);
    NodesAround(payload.members, k);
    CustodyGetsThePayload(n, rules, keyId, hash, payload);
  }
}
