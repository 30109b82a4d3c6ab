/** The session over real bridge frames: canonical JSON lines, bounded payloads, authenticated envelopes. */
module BridgeSession {
  import opened Outcomes
  import opened Texts
  import opened Json
  import opened Canonical
  import opened JsonText
  import opened BridgeCodec
  import opened Framing
  import opened PayloadWalk
  import opened JsonlSession
  import opened JsonlSessionRuns

  /** The codec's rules, the session's own text expressions, and frame authentication. */
  datatype SessionRules = SessionRules(
    rules: Rules, control: Text -> bool, privateText: Text -> bool, authentic: (Json, int) -> bool)

  const FORBIDDEN_KEYS: seq<Text> := [Ascii("constructor"), Ascii("prototype"), Ascii("__proto__")]

  const RUNTIME_TYPES: seq<Text> := [
    CAPABILITIES, Ascii("HEARTBEAT"), Ascii("DISPATCH_ACCEPTED"), Ascii("PROGRESS"), Ascii("ARTIFACT"),
    Ascii("USAGE"), Ascii("CANCELLED"), Ascii("RESULT"), Ascii("FAILED")]

  predicate ScalarAllowed(r: SessionRules, v: Json)
  {
    match v
    case String(s) => !r.control(s) && !r.privateText(s)
    case Null => true
    case Bool(_) => true
    case Integer(n) => IsSafeInteger(n)
    case _ => false
  }

  predicate KeysAllowed(r: SessionRules, keys: seq<Text>)
  {
    forall i :: 0 <= i < |keys| ==> keys[i] !in FORBIDDEN_KEYS && !r.control(keys[i]) && !r.privateText(keys[i])
  }

  /** Payloads may nest eight deep over 1024 nodes, with no array or object bound of their own. */
  function PayloadPolicy(r: SessionRules): Policy
  {
    Policy((v: Json) => ScalarAllowed(r, v), (n: nat) => true, (keys: seq<Text>) => KeysAllowed(r, keys))
  }

  ghost predicate PayloadAllowed(r: SessionRules, v: Json)
  {
    Field(v, PAYLOAD).Some? && Admitted(PayloadPolicy(r), Field(v, PAYLOAD).value)
  }

  /** The check made before a line is decoded: clean text, JSON, and an allowed payload. */
  ghost predicate Preflight(r: SessionRules, line: Bytes)
  {
    match FromUtf8(line)
    case None => false
    case Some(raw) =>
      REPLACEMENT !in raw && raw != [] && raw[|raw| - 1] == NEWLINE &&
      match Parse(raw[..|raw| - 1])
      case None => false
      case Some(v) => v.Object? && PayloadAllowed(r, v)
  }

  function KindOf(v: Json): Kind
  {
    match StringField(v, TYPE)
    case None => NotFromRuntime
    case Some(t) =>
      if t == CAPABILITIES then Capabilities else if t in RUNTIME_TYPES then OtherRuntimeMessage else NotFromRuntime
  }

  function NumberOf(v: Json): int { match SequenceOf(v) case Some(n) => n case None => 0 }

  function InstantOf(rules: Rules, v: Json, key: Text): int
  {
    match InstantField(rules, v, key) case Some(t) => t case None => 0
  }

  ghost function BridgeHost(r: SessionRules): Host<Json>
  {
    Host(
      (b: Bytes) => Decode(r.rules, b),
      (b: Bytes) => Preflight(r, b),
      (v: Json) => KindOf(v),
      (v: Json) => NumberOf(v),
      (v: Json) => PayloadAllowed(r, v),
      (v: Json) => InstantOf(r.rules, v, ISSUED_AT),
      (v: Json) => InstantOf(r.rules, v, EXPIRES_AT),
      r.authentic)
  }

  /** The early check refuses no line that the later checks would accept. */
  lemma {:induction false} PreflightIsImplied(r: SessionRules, line: Bytes)
    ensures match Decode(r.rules, line)
            case None => true
            case Some(v) => PayloadAllowed(r, v) ==> Preflight(r, line)
  {
    match Decode(r.rules, line) {
      case None =>
      case Some(v) => assert LineText(line).Some? && Parse(LineText(line).value) == Some(v) && v.Object?;
    }
  }

  /** The line is the encoding of this frame, and neither codec nor session has anything against it. */
  ghost predicate IsFrame(r: SessionRules, line: Bytes, v: Json)
  {
    && IsCanonical(r.rules.sensitive, v) && !HasReplacement(v) && Encode(r.rules, v) == Some(line)
    && PayloadAllowed(r, v)
  }

  lemma {:induction false} FrameExactly(r: SessionRules, line: Bytes, v: Json)
    ensures AllowsLine(BridgeHost(r), line, v) <==> IsFrame(r, line, v)
  {
    var host := BridgeHost(r);
    assert host.decode(line) == Decode(r.rules, line) && host.preflight(line) == Preflight(r, line);
    assert host.payloadAllowed(v) == PayloadAllowed(r, v);
    DecodeInvertsEncode(r.rules, line, v);
    PreflightIsImplied(r, line);
  }

  /**
   * A batch is admitted as these frames exactly when its lines are their encodings, one by one, and
   * they carry on the session: numbered on, of the runtime's types, CAPABILITIES first and only then.
   */
  lemma {:induction false} BatchAdmittedExactly(r: SessionRules, lines: seq<Bytes>, before: nat, frames: seq<Json>)
    ensures Admit(BridgeHost(r), lines, before + 1, before > 0) == Ok(frames) <==>
            && |lines| == |frames| && (forall i :: 0 <= i < |frames| ==> IsFrame(r, lines[i], frames[i]))
            && CarriesOn(BridgeHost(r), frames, before)
  {
    var host := BridgeHost(r);
    AdmittedExactly(host, lines, before, frames);
    if |lines| == |frames| {
      forall i | 0 <= i < |frames| ensures AllowsLine(host, lines[i], frames[i]) <==> IsFrame(r, lines[i], frames[i]) {
        FrameExactly(r, lines[i], frames[i]);
      }
    }
  }

  /** The encodings of frames, end to end. */
  function EncodeAll(rules: Rules, frames: seq<Json>): (b: Option<Bytes>)
  {
    if frames == [] then Some([])
    else
      match (Encode(rules, frames[0]), EncodeAll(rules, frames[1..]))
      case (Some(x), Some(y)) => Some(x + y)
      case _ => None
  }

  lemma {:induction false} DecodedLinesEncode(rules: Rules, lines: seq<Bytes>, frames: seq<Json>)
    requires |lines| == |frames| && forall i :: 0 <= i < |lines| ==> Decode(rules, lines[i]) == Some(frames[i])
    ensures EncodeAll(rules, frames) == Some(Concat(lines))
  {
    if lines != [] {
      DecodedLinesEncode(rules, lines[1..], frames[1..]);
      DecodeThenEncode(rules, lines[0]);
    }
  }

  lemma {:induction false} BridgeDecodes(r: SessionRules, lines: seq<Bytes>, frames: seq<Json>)
    requires Decodes(BridgeHost(r), lines, frames)
    ensures EncodeAll(r.rules, frames) == Some(Concat(lines))
  {
    forall i | 0 <= i < |lines| ensures Decode(r.rules, lines[i]) == Some(frames[i]) {
      assert BridgeHost(r).decode(lines[i]) == Decode(r.rules, lines[i]);
    }
    DecodedLinesEncode(r.rules, lines, frames);
  }

  /**
   * Over every run that is still active, the bytes taken in are exactly the canonical encodings of
   * the accepted frames followed by the buffered part of a line; the frames carry the sequence
   * numbers 1..n, the first is CAPABILITIES, and no later one is.
   */
  lemma {:induction false} BridgeRun(r: SessionRules, context: Context, events: seq<Event>)
    ensures var log := Run(BridgeHost(r), context, Start(), events);
            && EncodeAll(r.rules, log.frames).Some?
            && (log.state.active ==>
                  log.input == EncodeAll(r.rules, log.frames).value + log.state.buffer && NEWLINE !in log.state.buffer)
            && (forall i :: 0 <= i < |log.frames| ==>
                  NumberOf(log.frames[i]) == i + 1 && (KindOf(log.frames[i]) == Capabilities <==> i == 0))
  {
    var host := BridgeHost(r);
    EveryRun(host, context, events);
    var log := Run(host, context, Start(), events);
    BridgeDecodes(r, log.lines, log.frames);
    forall i | 0 <= i < |log.frames|
      ensures NumberOf(log.frames[i]) == i + 1 && (KindOf(log.frames[i]) == Capabilities <==> i == 0)
    {
      assert host.sequence(log.frames[i]) == NumberOf(log.frames[i]) &&
        host.kind(log.frames[i]) == KindOf(log.frames[i]);
    }
  }
}
