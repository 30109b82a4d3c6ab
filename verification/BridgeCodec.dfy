/** The text `JSON.stringify` gives canonical trees, seen as characters. */
module JsonText {
  import opened Texts
  import opened Json
  import opened Canonical

  // ----- the replacement character in a tree -----

  predicate HasReplacement(v: Json)
    decreases v, 1
  {
    match v
    case String(s) => REPLACEMENT in s
    case Array(items) => ItemsHaveReplacement(items)
    case Object(ms) => MembersHaveReplacement(ms)
    case _ => false
  }

  predicate ItemsHaveReplacement(items: seq<Json>)
    decreases items, 0
  {
    items != [] && (HasReplacement(items[0]) || ItemsHaveReplacement(items[1..]))
  }

  predicate MemberHasReplacement(m: Member)
    decreases m, 2
  {
    REPLACEMENT in m.key || HasReplacement(m.value)
  }

  predicate MembersHaveReplacement(ms: seq<Member>)
    decreases ms, 0
  {
    ms != [] && (MemberHasReplacement(ms[0]) || MembersHaveReplacement(ms[1..]))
  }

  lemma {:induction false} InsertKeepsReplacement(m: Member, ms: seq<Member>)
    ensures MembersHaveReplacement(Insert(m, ms)) <==> MemberHasReplacement(m) || MembersHaveReplacement(ms)
  {
    if ms != [] {
      var r := Insert(m, ms);
      if Before(ms[0].key, m.key) {
        InsertKeepsReplacement(m, ms[1..]);
        assert r[1..] == Insert(m, ms[1..]);
      } else {
        assert r[1..] == ms;
      }
    }
  }

  lemma {:induction false} SortKeepsReplacement(ms: seq<Member>)
    ensures MembersHaveReplacement(Sort(ms)) <==> MembersHaveReplacement(ms)
  {
    if ms != [] {
      SortKeepsReplacement(ms[1..]);
      InsertKeepsReplacement(ms[0], Sort(ms[1..]));
    }
  }

  lemma {:induction false} CanonicalizeKeepsReplacement(sensitive: Sensitive, v: Json)
    requires Canonicalize(sensitive, v).Some?
    ensures HasReplacement(Canonicalize(sensitive, v).value) <==> HasReplacement(v)
    decreases v, 1
  {
    match v {
      case Array(items) => ItemsKeepReplacement(sensitive, items);
      case Object(ms) =>
        MembersKeepReplacement(sensitive, ms);
        SortKeepsReplacement(CanonicalizeMembers(sensitive, ms).value);
      case _ =>
    }
  }

  lemma {:induction false} ItemsKeepReplacement(sensitive: Sensitive, items: seq<Json>)
    requires CanonicalizeItems(sensitive, items).Some?
    ensures ItemsHaveReplacement(CanonicalizeItems(sensitive, items).value) <==> ItemsHaveReplacement(items)
    decreases items, 0
  {
    if items != [] {
      CanonicalizeKeepsReplacement(sensitive, items[0]);
      ItemsKeepReplacement(sensitive, items[1..]);
      assert CanonicalizeItems(sensitive, items).value[1..] == CanonicalizeItems(sensitive, items[1..]).value;
    }
  }

  lemma {:induction false} MembersKeepReplacement(sensitive: Sensitive, ms: seq<Member>)
    requires CanonicalizeMembers(sensitive, ms).Some?
    ensures MembersHaveReplacement(CanonicalizeMembers(sensitive, ms).value) <==> MembersHaveReplacement(ms)
    decreases ms, 0
  {
    if ms != [] {
      CanonicalizeKeepsReplacement(sensitive, ms[0].value);
      MembersKeepReplacement(sensitive, ms[1..]);
      assert CanonicalizeMembers(sensitive, ms).value[1..] == CanonicalizeMembers(sensitive, ms[1..]).value;
    }
  }

  // ----- the characters of printed text -----

  /** Paired surrogates and no control character. */
  predicate Clean(t: Text) { WellFormed(t) && forall i :: 0 <= i < |t| ==> t[i] >= 32 }

  lemma {:induction false} CleanConcat(s: Text, t: Text)
    requires Clean(s) && Clean(t)
    ensures Clean(s + t) && (REPLACEMENT in s + t <==> REPLACEMENT in s || REPLACEMENT in t)
  {
    WellFormedConcat(s, t);
  }

  lemma {:induction false} CleanAscii(t: Text)
    requires forall i :: 0 <= i < |t| ==> 32 <= t[i] < 128
    ensures Clean(t) && REPLACEMENT !in t
  {
    PlainIsWellFormed(t);
  }

  lemma {:induction false} CleanEscape(u: Unit)
    ensures Clean(Escape(u)) && (REPLACEMENT in Escape(u) <==> u == REPLACEMENT)
  {
    var e := Escape(u);
    if u < 32 || IsSurrogate(u) || ShortEscape(u).Some? {
      CleanAscii(e);
    } else {
      assert e == [u];
      PlainIsWellFormed(e);
    }
  }

  lemma {:induction false} CleanQuoteBody(s: Text)
    ensures Clean(QuoteBody(s)) && (REPLACEMENT in QuoteBody(s) <==> REPLACEMENT in s)
    decreases |s|
  {
    if s != [] {
      var n := LeadLength(s);
      var head := if n == 2 then s[..2] else Escape(s[0]);
      CleanQuoteBody(s[n..]);
      if n == 2 {
        assert head[2..] == [];
      } else {
        CleanEscape(s[0]);
      }
      CleanConcat(head, QuoteBody(s[n..]));
      assert QuoteBody(s) == head + QuoteBody(s[n..]);
      assert s == s[..n] + s[n..];
    }
  }

  lemma {:induction false} CleanQuote(s: Text)
    ensures Clean(Quote(s)) && (REPLACEMENT in Quote(s) <==> REPLACEMENT in s)
  {
    CleanQuoteBody(s);
    CleanAscii([QUOTE]);
    CleanConcat([QUOTE], QuoteBody(s));
    CleanConcat([QUOTE] + QuoteBody(s), [QUOTE]);
  }

  lemma {:induction false} CleanBracketed(open: Unit, body: Text, close: Unit)
    requires 32 <= open < 128 && 32 <= close < 128 && Clean(body)
    ensures Clean([open] + body + [close]) && (REPLACEMENT in [open] + body + [close] <==> REPLACEMENT in body)
  {
    CleanAscii([open]);
    CleanAscii([close]);
    CleanConcat([open], body);
    CleanConcat([open] + body, [close]);
  }

  lemma {:induction false} CleanJoin(a: Text, comma: Unit, b: Text)
    requires 32 <= comma < 128 && Clean(a) && Clean(b)
    ensures Clean(a + [comma] + b) && (REPLACEMENT in a + [comma] + b <==> REPLACEMENT in a || REPLACEMENT in b)
  {
    CleanAscii([comma]);
    CleanConcat(a, [comma]);
    CleanConcat(a + [comma], b);
  }

  /** Printed text has no control character and pairs its surrogates, and it shows a replacement
      character exactly when the tree holds one. */
  lemma {:induction false} PrintedText(v: Json)
    ensures Clean(Print(v)) && (REPLACEMENT in Print(v) <==> HasReplacement(v))
    decreases v, 1
  {
    match v {
      case String(s) => CleanQuote(s);
      case Array(items) =>
        PrintedItems(items);
        CleanBracketed(OPEN_ARRAY, PrintItems(items), CLOSE_ARRAY);
      case Object(ms) =>
        PrintedMembers(ms);
        CleanBracketed(OPEN_OBJECT, PrintMembers(ms), CLOSE_OBJECT);
      case _ => CleanAscii(Print(v));
    }
  }

  lemma {:induction false} PrintedItems(items: seq<Json>)
    ensures Clean(PrintItems(items)) && (REPLACEMENT in PrintItems(items) <==> ItemsHaveReplacement(items))
    decreases items, 0
  {
    if items == [] {
      CleanAscii(PrintItems(items));
    } else {
      PrintedText(items[0]);
      PrintedItems(items[1..]);
      CleanJoin(Print(items[0]), COMMA, PrintItems(items[1..]));
    }
  }

  lemma {:induction false} PrintedMembers(ms: seq<Member>)
    ensures Clean(PrintMembers(ms)) && (REPLACEMENT in PrintMembers(ms) <==> MembersHaveReplacement(ms))
    decreases ms, 0
  {
    if ms == [] {
      CleanAscii(PrintMembers(ms));
    } else {
      PrintedText(ms[0].value);
      CleanQuote(ms[0].key);
      CleanJoin(Quote(ms[0].key), COLON, Print(ms[0].value));
      PrintedMembers(ms[1..]);
      CleanJoin(PrintMember(ms[0]), COMMA, PrintMembers(ms[1..]));
    }
  }

  // ----- what the parser builds -----

  lemma {:induction false} PutKeepsKeysDistinct(ms: seq<Member>, key: Text, value: Json)
    requires DistinctKeys(ms) && WellKeyed(Object(ms)) && WellKeyed(value)
    ensures WellKeyed(Object(Put(ms, key, value)))
    ensures forall i :: 0 <= i < |Put(ms, key, value)| ==>
              Put(ms, key, value)[i].key == key || exists j :: 0 <= j < |ms| && ms[j].key == Put(ms, key, value)[i].key
  {
    if ms != [] && ms[0].key != key {
      var tail := ms[1..];
      assert WellKeyed(Object(tail));
      PutKeepsKeysDistinct(tail, key, value);
      var r := Put(tail, key, value);
      forall i | 0 <= i < |r| ensures r[i].key != ms[0].key {
        if r[i].key != key {
          var j :| 0 <= j < |tail| && tail[j].key == r[i].key;
          assert ms[j + 1].key == r[i].key;
        }
      }
    }
  }

  lemma {:induction false} ParsedIsWellKeyed(t: Text)
    requires ParseValue(t).Some?
    ensures WellKeyed(ParseValue(t).value.0)
    decreases |t|, 2
  {
    var s := SkipSpace(t);
    if s[0] == OPEN_ARRAY && ParseValue(t).value.0 != Array([]) {
      ParsedItemsAreWellKeyed(SkipSpace(s[1..]));
    } else if s[0] == OPEN_OBJECT && ParseValue(t).value.0 != Object([]) {
      ParsedMembersAreWellKeyed(SkipSpace(s[1..]), []);
    }
  }

  lemma {:induction false} ParsedItemsAreWellKeyed(t: Text)
    requires ParseItems(t).Some?
    ensures WellKeyed(Array(ParseItems(t).value.0))
    decreases |t|, 3
  {
    ParsedIsWellKeyed(t);
    var u := SkipSpace(ParseValue(t).value.1);
    if Starts(u, COMMA) {
      ParsedItemsAreWellKeyed(u[1..]);
    }
  }

  lemma {:induction false} ParsedMembersAreWellKeyed(t: Text, before: seq<Member>)
    requires ParseMembers(t, before).Some? && WellKeyed(Object(before))
    ensures WellKeyed(Object(ParseMembers(t, before).value.0))
    decreases |t|, 3
  {
    var k := ParseString(SkipSpace(t)[1..]).value;
    var c := SkipSpace(k.1);
    ParsedIsWellKeyed(c[1..]);
    var p := ParseValue(c[1..]).value;
    PutKeepsKeysDistinct(before, k.0, p.0);
    var u := SkipSpace(p.1);
    if Starts(u, COMMA) {
      ParsedMembersAreWellKeyed(u[1..], Put(before, k.0, p.0));
    }
  }
}

/** Bridge envelopes, one canonical JSON line each. */
module BridgeCodec {
  import opened Outcomes
  import opened Texts
  import opened Json
  import opened Canonical
  import opened JsonText
  import Framing

  const MAX_FRAME_LIFETIME_MS: int := 300_000

  /** The parts of the host the codec consults: the sensitive-text expression, and the instant in
      milliseconds of a canonical UTC timestamp. */
  datatype Rules = Rules(sensitive: Sensitive, instant: Text -> Option<int>)

  const PROTOCOL_VERSION: Text := Ascii("protocolVersion")
  const SEQUENCE: Text := Ascii("sequence")
  const TYPE: Text := Ascii("type")
  const ISSUED_AT: Text := Ascii("issuedAt")
  const EXPIRES_AT: Text := Ascii("expiresAt")
  const PAYLOAD: Text := Ascii("payload")
  const PAYLOAD_DIGEST: Text := Ascii("payloadDigest")
  const MAC: Text := Ascii("mac")

  const REFERENCE_FIELDS: seq<Text> := [
    Ascii("workspaceId"), Ascii("runtimeId"), Ascii("connectionId"), Ascii("sessionId"),
    Ascii("principalReference"), Ascii("messageId")]

  const ENVELOPE_KEYS: seq<Text> := [
    Ascii("connectionId"), EXPIRES_AT, ISSUED_AT, MAC, Ascii("messageId"), PAYLOAD, PAYLOAD_DIGEST,
    Ascii("principalReference"), PROTOCOL_VERSION, Ascii("runtimeId"), SEQUENCE, Ascii("sessionId"), TYPE,
    Ascii("workspaceId")]

  const BRIDGE_VERSION: Text := Ascii("ventureos.bridge.v1")
  const CAPABILITIES: Text := Ascii("CAPABILITIES")

  const TYPES: seq<Text> := [
    Ascii("CHALLENGE"), Ascii("AUTHENTICATE"), CAPABILITIES, Ascii("HEARTBEAT"), Ascii("DISPATCH"),
    Ascii("DISPATCH_ACCEPTED"), Ascii("PROGRESS"), Ascii("ARTIFACT"), Ascii("USAGE"), Ascii("CANCELLED"),
    Ascii("RESULT"), Ascii("FAILED")]

  predicate IsMac(t: Text)
  {
    |t| == 43 && forall i :: 0 <= i < |t| ==> IsAlphanumeric(t[i]) || t[i] == 95 || t[i] == 45
  }

  function InstantField(rules: Rules, v: Json, key: Text): (r: Option<int>)
  {
    match StringField(v, key)
    case Some(s) => rules.instant(s)
    case None => None
  }

  predicate HasReference(rules: Rules, v: Json, key: Text)
  {
    match StringField(v, key)
    case Some(s) => IsSafeReference(s) && !rules.sensitive(s)
    case None => false
  }

  /** The sequence number, when it is a positive safe integer. */
  function SequenceOf(v: Json): (r: Option<int>)
  {
    match Field(v, SEQUENCE)
    case Some(Integer(n)) => if IsSafeInteger(n) && n >= 1 then Some(n) else None
    case _ => None
  }

  predicate HasLifetime(rules: Rules, v: Json)
  {
    match (InstantField(rules, v, ISSUED_AT), InstantField(rules, v, EXPIRES_AT))
    case (Some(issued), Some(expires)) => issued < expires <= issued + MAX_FRAME_LIFETIME_MS
    case _ => false
  }

  predicate ValidEnvelope(rules: Rules, v: Json)
  {
    && v.Object?
    && Keys(Sort(v.members)) == ENVELOPE_KEYS
    && StringField(v, PROTOCOL_VERSION) == Some(BRIDGE_VERSION)
    && (forall i :: 0 <= i < |REFERENCE_FIELDS| ==> HasReference(rules, v, REFERENCE_FIELDS[i]))
    && SequenceOf(v).Some?
    && (match StringField(v, TYPE) case Some(t) => t in TYPES case None => false)
    && HasLifetime(rules, v)
    && (match StringField(v, PAYLOAD_DIGEST) case Some(t) => IsDigest(t) case None => false)
    && (match StringField(v, MAC) case Some(t) => IsMac(t) case None => false)
    && (match Field(v, PAYLOAD) case Some(p) => Canonicalize(rules.sensitive, p).Some? case None => false)
  }

  function Encode(rules: Rules, v: Json): (r: Option<Bytes>)
  {
    if !ValidEnvelope(rules, v) then None
    else
      match CanonicalJson(rules.sensitive, v)
      case None => None
      case Some(t) =>
        var b := Utf8(t + [NEWLINE]);
        if |b| > Framing.MAX_LINE_BYTES then None else Some(b)
  }

  /** The text before the newline that ends a line, when the bytes are one line of clean UTF-8. */
  function LineText(b: Bytes): (r: Option<Text>)
  {
    if b == [] || |b| > Framing.MAX_LINE_BYTES then None
    else
      match FromUtf8(b)
      case None => None
      case Some(raw) =>
        if REPLACEMENT in raw || raw == [] || raw[|raw| - 1] != NEWLINE || NEWLINE in raw[..|raw| - 1] then None
        else Some(raw[..|raw| - 1])
  }

  /** The envelope a JSON text spells canonically. */
  function Accept(rules: Rules, json: Text): (r: Option<Json>)
  {
    match Parse(json)
    case None => None
    case Some(v) => if ValidEnvelope(rules, v) && CanonicalJson(rules.sensitive, v) == Some(json) then Some(v) else None
  }

  function Decode(rules: Rules, b: Bytes): (r: Option<Json>)
  {
    match LineText(b)
    case None => None
    case Some(json) => Accept(rules, json)
  }

  // ----- validation does not see key order -----

  lemma {:induction false} FindIn(ms: seq<Member>, key: Text)
    requires DistinctKeys(ms)
    ensures Find(ms, key).Some? ==> Member(key, Find(ms, key).value) in ms
    ensures forall x :: x in ms && x.key == key ==> Find(ms, key) == Some(x.value)
  {
    if Find(ms, key).Some? {
      var j := FindPlace(ms, key);
    }
    forall x | x in ms && x.key == key ensures Find(ms, key) == Some(x.value) {
      var j :| 0 <= j < |ms| && ms[j] == x;
      FindAt(ms, j);
    }
  }

  /** A field of the canonical form is the canonical form of the field. */
  lemma {:induction false} FieldOfCanonical(sensitive: Sensitive, v: Json, key: Text)
    requires v.Object? && WellKeyed(v) && Canonicalize(sensitive, v).Some?
    ensures var c := Canonicalize(sensitive, v).value;
            match Field(v, key)
            case None => Field(c, key) == None
            case Some(x) => Canonicalize(sensitive, x).Some? && Field(c, key) == Canonicalize(sensitive, x)
  {
    var ms := v.members;
    MembersPointwise(sensitive, ms);
    var cs := CanonicalizeMembers(sensitive, ms).value;
    SortSorted(cs);
    SortedHasDistinctKeys(Sort(cs));
    FindIn(Sort(cs), key);
    match Find(ms, key) {
      case Some(x) =>
        var j := FindPlace(ms, key);
        assert cs[j] in Sort(cs);
      case None =>
        if Find(Sort(cs), key).Some? {
          var x := Member(key, Find(Sort(cs), key).value);
          assert x in cs;
          var j :| 0 <= j < |cs| && cs[j] == x;
          FindAt(ms, j);
        }
    }
  }

  lemma {:induction false} InsertKeys(m: Member, n: Member, a: seq<Member>, b: seq<Member>)
    requires m.key == n.key && Keys(a) == Keys(b)
    ensures Keys(Insert(m, a)) == Keys(Insert(n, b))
  {
    assert |a| == |b|;
    if a != [] {
      assert a[0].key == Keys(a)[0] == b[0].key;
      if Before(a[0].key, m.key) {
        assert Keys(a[1..]) == Keys(a)[1..] == Keys(b[1..]);
        InsertKeys(m, n, a[1..], b[1..]);
        assert Keys(Insert(m, a)) == [a[0].key] + Keys(Insert(m, a[1..]));
        assert Keys(Insert(n, b)) == [b[0].key] + Keys(Insert(n, b[1..]));
      } else {
        assert Keys(Insert(m, a)) == [m.key] + Keys(a);
        assert Keys(Insert(n, b)) == [n.key] + Keys(b);
      }
    }
  }

  lemma {:induction false} SortKeys(a: seq<Member>, b: seq<Member>)
    requires Keys(a) == Keys(b)
    ensures Keys(Sort(a)) == Keys(Sort(b))
  {
    assert |a| == |b|;
    if a != [] {
      assert Keys(a[1..]) == Keys(a)[1..] == Keys(b[1..]);
      SortKeys(a[1..], b[1..]);
      assert a[0].key == Keys(a)[0] == b[0].key;
      InsertKeys(a[0], b[0], Sort(a[1..]), Sort(b[1..]));
    }
  }

  lemma {:induction false} StringFieldOfCanonical(sensitive: Sensitive, v: Json, key: Text)
    requires v.Object? && WellKeyed(v) && Canonicalize(sensitive, v).Some?
    ensures StringField(Canonicalize(sensitive, v).value, key) == StringField(v, key)
  {
    FieldOfCanonical(sensitive, v, key);
  }

  lemma {:induction false} ValidOfCanonical(rules: Rules, v: Json)
    requires WellKeyed(v) && Canonicalize(rules.sensitive, v).Some? && ValidEnvelope(rules, v)
    ensures ValidEnvelope(rules, Canonicalize(rules.sensitive, v).value)
  {
    var c := Canonicalize(rules.sensitive, v).value;
    var cs := CanonicalizeMembers(rules.sensitive, v.members).value;
    MembersPointwise(rules.sensitive, v.members);
    SortKeys(v.members, cs);
    SortSorted(cs);
    SortLeavesSorted(Sort(cs));
    forall key ensures StringField(c, key) == StringField(v, key) { StringFieldOfCanonical(rules.sensitive, v, key); }
    forall i | 0 <= i < |REFERENCE_FIELDS| ensures HasReference(rules, c, REFERENCE_FIELDS[i]) {
      assert HasReference(rules, v, REFERENCE_FIELDS[i]);
    }
    FieldOfCanonical(rules.sensitive, v, SEQUENCE);
    FieldOfCanonical(rules.sensitive, v, PAYLOAD);
    var p := Find(v.members, PAYLOAD).value;
    var j := FindPlace(v.members, PAYLOAD);
    CanonicalizeIsIdempotent(rules.sensitive, p);
  }

  // ----- the line -----

  lemma {:induction false} EncodedLine(rules: Rules, v: Json)
    requires CanonicalJson(rules.sensitive, v).Some?
    ensures var t := CanonicalJson(rules.sensitive, v).value;
            var b := Utf8(t + [NEWLINE]);
            && FromUtf8(b) == Some(t + [NEWLINE]) && NEWLINE !in t
            && (REPLACEMENT in t <==> HasReplacement(v))
            && b == Utf8(t) + [NEWLINE] && NEWLINE !in Utf8(t)
  {
    var c := Canonicalize(rules.sensitive, v).value;
    var t := Print(c);
    PrintedText(c);
    CanonicalizeKeepsReplacement(rules.sensitive, v);
    PlainIsWellFormed([NEWLINE]);
    WellFormedConcat(t, [NEWLINE]);
    Utf8RoundTrip(t + [NEWLINE]);
    Utf8Concat(t, [NEWLINE]);
    assert Utf8([NEWLINE]) == [NEWLINE] by {
      assert Utf8([]) == [] && [NEWLINE][1..] == [];
    }
    NewlineBytes(t);
  }

  lemma {:induction false} LineTextOf(t: Text, b: Bytes)
    requires FromUtf8(b) == Some(t + [NEWLINE]) && NEWLINE !in t && 1 <= |b| <= Framing.MAX_LINE_BYTES
    ensures LineText(b) == if REPLACEMENT in t then None else Some(t)
  {
    var raw := t + [NEWLINE];
    assert raw[..|raw| - 1] == t;
    assert REPLACEMENT in raw <==> REPLACEMENT in t;
  }

  /**
   * Decoding an encoded envelope gives back the envelope, up to the order of its objects' keys,
   * unless one of its strings holds U+FFFD; then the line is refused.
   */
  lemma {:induction false} EncodeThenDecode(rules: Rules, v: Json)
    requires WellKeyed(v) && Encode(rules, v).Some?
    ensures Decode(rules, Encode(rules, v).value) ==
            if HasReplacement(v) then None else Canonicalize(rules.sensitive, v)
    ensures Canonicalize(rules.sensitive, v).Some? && Same(v, Canonicalize(rules.sensitive, v).value)
  {
    var t := CanonicalJson(rules.sensitive, v).value;
    EncodedLine(rules, v);
    LineTextOf(t, Encode(rules, v).value);
    ParseCanonicalJson(rules.sensitive, v);
    CanonicalizeIsIdempotent(rules.sensitive, v);
    ValidOfCanonical(rules, v);
  }

  /** Canonical text is only ever parsed to a canonical tree. */
  lemma {:induction false} CanonicalTextMeansCanonical(sensitive: Sensitive, json: Text, v: Json)
    requires Parse(json) == Some(v) && CanonicalJson(sensitive, v) == Some(json)
    ensures IsCanonical(sensitive, v)
  {
    ParsedIsWellKeyed(json);
    ParseCanonicalJson(sensitive, v);
    CanonicalizeIsIdempotent(sensitive, v);
  }

  lemma {:induction false} LineTextExact(b: Bytes)
    requires LineText(b).Some?
    ensures Utf8(LineText(b).value + [NEWLINE]) == b && |b| <= Framing.MAX_LINE_BYTES &&
            REPLACEMENT !in LineText(b).value
  {
    var raw := FromUtf8(b).value;
    FromUtf8Exact(b);
    EndsInNewline(raw);
  }

  lemma {:induction false} EndsInNewline(t: Text)
    requires t != [] && t[|t| - 1] == NEWLINE
    ensures t[..|t| - 1] + [NEWLINE] == t
  {
  }

  /** An accepted line is the encoding of the envelope it decodes to, which is canonical. */
  lemma {:induction false} DecodeThenEncode(rules: Rules, b: Bytes)
    ensures match Decode(rules, b)
            case None => true
            case Some(v) => Encode(rules, v) == Some(b) && IsCanonical(rules.sensitive, v) && !HasReplacement(v)
  {
    match Decode(rules, b) {
      case None =>
      case Some(v) =>
        LineTextExact(b);
        CanonicalTextMeansCanonical(rules.sensitive, LineText(b).value, v);
        EncodedLine(rules, v);
    }
  }

  /**
   * Decoding accepts a line exactly when it is the encoding of a canonical envelope free of
   * U+FFFD, and answers with that envelope: encoding and decoding are inverse bijections.
   */
  lemma {:induction false} DecodeInvertsEncode(rules: Rules, b: Bytes, v: Json)
    ensures Decode(rules, b) == Some(v) <==>
            IsCanonical(rules.sensitive, v) && !HasReplacement(v) && Encode(rules, v) == Some(b)
  {
    if Decode(rules, b) == Some(v) {
      DecodeThenEncode(rules, b);
    } else if IsCanonical(rules.sensitive, v) && !HasReplacement(v) && Encode(rules, v) == Some(b) {
      CanonicalIsPlain(rules.sensitive, v);
      EncodeThenDecode(rules, v);
      CanonicalIsFixed(rules.sensitive, v);
    }
  }

  /** Two envelopes have one encoding exactly when they are equal up to key order. */
  lemma {:induction false} EncodeAgrees(rules: Rules, v: Json, w: Json)
    requires WellKeyed(v) && WellKeyed(w) && Encode(rules, v).Some? && Encode(rules, w).Some?
    ensures Encode(rules, v) == Encode(rules, w) <==> Same(v, w)
  {
    CanonicalJsonAgrees(rules.sensitive, v, w);
    EncodedLine(rules, v);
    EncodedLine(rules, w);
    var s, t := CanonicalJson(rules.sensitive, v).value, CanonicalJson(rules.sensitive, w).value;
    assert (s + [NEWLINE])[..|s|] == s && (t + [NEWLINE])[..|t|] == t;
  }
}
