/**
 * From the runner's evidence to signed frames, and from those frames to the candidate record. The
 * adapter writes frames first and builds the candidate last, so a builder that denied would leave
 * written frames without a record.
 */
module RuntimeAdapter {
  import opened Outcomes
  import opened Texts
  import opened AppServerMessages
  import opened ProtocolRunner

  datatype Identity = Identity(workspaceId: Text, runtimeId: Text, connectionId: Text, sessionId: Text, principal: Text)

  /** An accepted dispatch candidate; instants are milliseconds. */
  datatype Dispatch = Dispatch(
    identity: Identity, authGeneration: int, id: Text, taskId: Text, runId: Text, agentId: Text,
    candidateHash: Text, heartbeatHash: Text, taskPolicyHash: Text, bridgeIdentityHash: Text, secretBindingHash: Text,
    issuedAt: int, expiresAt: int, maximumDurationMs: int)

  /** An accepted bridge context. */
  datatype Bridge = Bridge(
    identity: Identity, authGeneration: int, authenticatedAt: int, expiresAt: int,
    parentNonce: Text, runtimeNonce: Text, secretReference: Text, secretDigest: Text)

  datatype Key =
    | ChallengeCode | DispatchId | TaskId | RunId | ResultCode | InterruptRequestId | InterruptResponseHash
    | TerminalThreadId | TerminalTurnId | TerminalMessageHash | TerminalStatus | ProgressEventCount
    | ProgressEvidenceHash | TokenUsageEventCount | TokenUsageEvidenceHash | UsageAccountingState
    | RecognizedCostMinorUnits | RecognizedComputeUnits

  datatype Scalar = Words(text: Text) | Number(n: int)

  type Payload = map<Key, Scalar>

  datatype Kind = DispatchAccepted | Result | Cancelled

  datatype Envelope = Envelope(
    identity: Identity, sequence: nat, messageId: Text, kind: Kind, issuedAt: int, expiresAt: int,
    payloadDigest: Text, payload: Payload, mac: Text)

  /**
   * What the adapter is built on. `clean` is the text rule of canonical JSON, `payloadDigest` and
   * `envelopeDigest` hash canonical JSON, `encodes` says that the codec produced a line.
   */
  datatype Host = Host(
    clean: Text -> bool,
    sha256: Text -> Text,
    shortHash: Text -> Text,
    bridgeIdentityHash: Bridge -> Text,
    secretBindingHash: Bridge -> Text,
    payloadDigest: Payload -> Text,
    envelopeDigest: Envelope -> Text,
    mac: Envelope -> Text,
    valid: Envelope -> bool,
    encodes: Envelope -> bool,
    challenge: Text,
    completedCode: Text,
    cancelledCode: Text,
    emptyProgressHash: Text,
    emptyTokenHash: Text)

  /** What the codec, the hash and the dispatch validator promise. */
  ghost predicate Fair(host: Host)
  {
    && (forall t :: IsDigest(t) ==> host.clean(t))
    && (forall t :: IsDigest(host.sha256(t)))
    && (forall e :: IsDigest(host.envelopeDigest(e)))
    && (forall e :: host.encodes(e) ==> host.valid(e) && host.clean(e.messageId) && CleanPayload(host, e.payload))
    && (forall e :: host.valid(e) ==>
       IsDigest(e.payloadDigest) && IsSafeReference(e.messageId) &&
       e.issuedAt < e.expiresAt)
  }

  ghost predicate CleanPayload(host: Host, payload: Payload)
  {
    forall key :: key in payload && payload[key].Words? ==> host.clean(payload[key].text)
  }

  ghost predicate CleanDispatch(host: Host, d: Dispatch)
  {
    && host.clean(d.identity.workspaceId) && host.clean(d.identity.runtimeId) && host.clean(d.identity.connectionId)
    && host.clean(d.identity.sessionId) && host.clean(d.identity.principal)
    && host.clean(d.id) && host.clean(d.taskId) && host.clean(d.runId) && host.clean(d.agentId)
    && IsDigest(d.candidateHash) && IsDigest(d.heartbeatHash) && IsDigest(d.taskPolicyHash)
  }

  // ----- evidence -----

  predicate Refers(t: Option<Text>)
  {
    t.Some? && IsSafeReference(t.value)
  }

  predicate UsageAllowed(host: Host, u: Usage)
  {
    && u.progressCount <= 128 && u.tokenCount <= u.progressCount
    && (u.progressCount == 0 ==> u.progressHash == host.emptyProgressHash)
    && (u.tokenCount == 0 ==> u.tokenHash == host.emptyTokenHash)
    && u.observed == (u.tokenCount != 0)
    && IsDigest(u.progressHash) && IsDigest(u.tokenHash)
  }

  /** The adapter's check of what the runner returned. */
  predicate TerminalAllowed(host: Host, e: Evidence)
  {
    && Refers(e.threadId) && Refers(e.turnId) && IsDigest(e.messageHash) && UsageAllowed(host, e.usage)
    && match e.status
       case Completed => e.interrupt == None
       case Interrupted => e.interrupt.Some? && e.interrupt.value.0 >= 1 && IsDigest(e.interrupt.value.1)
       case Failure => false
  }

  // ----- frames -----

  function Code(completed: bool): Text { if completed then Ascii("completed") else Ascii("interrupted") }

  function Accounting(u: Usage): Text { if u.observed then Ascii("OBSERVED_UNMAPPED") else Ascii("NOT_OBSERVED") }

  function StatusPayload(host: Host, d: Dispatch): Payload
  {
    map[ChallengeCode := Words(host.challenge), DispatchId := Words(d.id), TaskId := Words(d.taskId),
      RunId := Words(d.runId)]
  }

  /** The fields that every terminal payload carries. */
  function TerminalPayload(e: Evidence): Payload
    requires e.threadId.Some? && e.turnId.Some?
  {
    map[TerminalThreadId := Words(e.threadId.value), TerminalTurnId := Words(e.turnId.value),
        TerminalMessageHash := Words(e.messageHash), TerminalStatus := Words(Code(e.status == Completed)),
        ProgressEventCount := Number(e.usage.progressCount), ProgressEvidenceHash := Words(e.usage.progressHash),
        TokenUsageEventCount := Number(e.usage.tokenCount), TokenUsageEvidenceHash := Words(e.usage.tokenHash),
        UsageAccountingState := Words(Accounting(e.usage)),
        RecognizedCostMinorUnits := Number(0), RecognizedComputeUnits := Number(0)]
  }

  function ResultPayload(host: Host, d: Dispatch, e: Evidence): Payload
    requires e.threadId.Some? && e.turnId.Some?
  {
    StatusPayload(host, d) + map[ResultCode := Words(host.completedCode)] + TerminalPayload(e)
  }

  function InterruptPayload(host: Host, e: Evidence): (p: Payload)
    requires e.interrupt.Some?
  {
    map[ResultCode := Words(host.cancelledCode), InterruptRequestId := Number(e.interrupt.value.0),
        InterruptResponseHash := Words(e.interrupt.value.1)]
  }

  function CancelledPayload(host: Host, d: Dispatch, e: Evidence): Payload
    requires e.threadId.Some? && e.turnId.Some? && e.interrupt.Some?
  {
    StatusPayload(host, d) + InterruptPayload(host, e) + TerminalPayload(e)
  }

  function Signed(
    host: Host, b: Bridge, sequence: nat, messageId: Text, kind: Kind, issuedAt: int, expiresAt: int,
    payload: Payload): Envelope
  {
    var unsigned := Envelope(b.identity, sequence, messageId, kind, issuedAt, expiresAt, host.payloadDigest(payload),
      payload, []);
    unsigned.(mac := host.mac(unsigned))
  }

  const STATUS_PREFIX: Text := Ascii("validation-status:")
  const RESULT_PREFIX: Text := Ascii("validation-result:")
  const CANCELLED_PREFIX: Text := Ascii("validation-") + Ascii("cancelled:")

  function StatusFrame(host: Host, d: Dispatch, b: Bridge, at: int, expiresAt: int): Envelope
  {
    Signed(host, b, 2, STATUS_PREFIX + host.shortHash(d.id), DispatchAccepted, at, expiresAt, StatusPayload(host, d))
  }

  function ResultFrame(host: Host, d: Dispatch, b: Bridge, e: Evidence, at: int, expiresAt: int): Envelope
    requires e.threadId.Some? && e.turnId.Some?
  {
    Signed(host, b, 3, RESULT_PREFIX + host.shortHash(d.id), Result, at, expiresAt, ResultPayload(host, d, e))
  }

  function CancelledFrame(host: Host, d: Dispatch, b: Bridge, e: Evidence, at: int, expiresAt: int): Envelope
    requires e.threadId.Some? && e.turnId.Some? && e.interrupt.Some?
  {
    Signed(host, b, 2, CANCELLED_PREFIX + host.shortHash(d.id), Cancelled, at, expiresAt, CancelledPayload(host, d, e))
  }

  // ----- the builders -----

  /** What a candidate keeps of one frame. */
  datatype Receipt = Receipt(
    sequence: nat, messageId: Text, payloadDigest: Text, envelopeDigest: Text, tagDigest: Text, issuedAt: int,
    expiresAt: int)

  datatype Candidate = Candidate(
    identity: Identity, authGeneration: int, dispatchHash: Text, heartbeatHash: Text, dispatchId: Text, taskId: Text,
    runId: Text, agentId: Text, taskPolicyHash: Text, usage: Usage, threadId: Text, turnId: Text, messageHash: Text,
    interrupt: Option<(int, Text)>, receipts: seq<Receipt>)

  function ReceiptOf(host: Host, e: Envelope): Receipt
  {
    Receipt(e.sequence, e.messageId, e.payloadDigest, host.envelopeDigest(e), host.sha256(e.mac), e.issuedAt,
      e.expiresAt)
  }

  function CandidateOf(host: Host, d: Dispatch, b: Bridge, e: Evidence, frames: seq<Envelope>): Candidate
    requires e.threadId.Some? && e.turnId.Some?
  {
    Candidate(b.identity, b.authGeneration, d.candidateHash, d.heartbeatHash, d.id, d.taskId, d.runId, d.agentId,
      d.taskPolicyHash,
              e.usage, e.threadId.value, e.turnId.value, e.messageHash, e.interrupt,
              seq(|frames|, i requires 0 <= i < |frames| => ReceiptOf(host, frames[i])))
  }

  predicate CleanIdentity(host: Host, i: Identity)
  {
    host.clean(i.workspaceId) && host.clean(i.runtimeId) && host.clean(i.connectionId) && host.clean(i.sessionId) &&
      host.clean(i.principal)
  }

  predicate CleanReceipt(host: Host, r: Receipt)
  {
    host.clean(r.messageId) && host.clean(r.payloadDigest) && host.clean(r.envelopeDigest) && host.clean(r.tagDigest)
  }

  /** The candidate's own hash needs canonical JSON: every text must be clean. */
  predicate Hashable(host: Host, c: Candidate)
  {
    && CleanIdentity(host, c.identity)
    && host.clean(c.dispatchHash) && host.clean(c.heartbeatHash) && host.clean(c.dispatchId) && host.clean(c.taskId)
    && host.clean(c.runId) && host.clean(c.agentId) && host.clean(c.taskPolicyHash)
    && host.clean(c.usage.progressHash) && host.clean(c.usage.tokenHash)
    && host.clean(c.threadId) && host.clean(c.turnId) && host.clean(c.messageHash)
    && (c.interrupt.Some? ==> host.clean(c.interrupt.value.1))
    && forall i :: 0 <= i < |c.receipts| ==> CleanReceipt(host, c.receipts[i])
  }

  const STATUS_KEYS: set<Key> := {ChallengeCode, DispatchId, TaskId, RunId}

  const TERMINAL_KEYS: set<Key> := {
    TerminalThreadId, TerminalTurnId, TerminalMessageHash, TerminalStatus, ProgressEventCount, ProgressEvidenceHash,
    TokenUsageEventCount, TokenUsageEvidenceHash, UsageAccountingState, RecognizedCostMinorUnits,
    RecognizedComputeUnits}

  /** The payload names the challenge and the dispatch. */
  predicate NamesDispatch(host: Host, d: Dispatch, p: Payload)
    requires STATUS_KEYS <= p.Keys
  {
    p[ChallengeCode] == Words(host.challenge) && p[DispatchId] == Words(d.id) && p[TaskId] == Words(d.taskId) &&
      p[RunId] == Words(d.runId)
  }

  /** The payload repeats the evidence. */
  predicate RepeatsEvidence(e: Evidence, p: Payload)
    requires TERMINAL_KEYS <= p.Keys && e.threadId.Some? && e.turnId.Some?
  {
    && p[TerminalStatus] == Words(Code(e.status == Completed))
    && p[TerminalThreadId] == Words(e.threadId.value) && p[TerminalTurnId] == Words(e.turnId.value)
    && p[TerminalMessageHash] == Words(e.messageHash)
    && p[ProgressEventCount] == Number(e.usage.progressCount) && p[ProgressEvidenceHash] == Words(e.usage.progressHash)
    && p[TokenUsageEventCount] == Number(e.usage.tokenCount) && p[TokenUsageEvidenceHash] == Words(e.usage.tokenHash)
    && p[UsageAccountingState] == Words(Accounting(e.usage))
    && p[RecognizedCostMinorUnits] == Number(0) && p[RecognizedComputeUnits] == Number(0)
  }

  /** A frame of this bridge in this place. */
  predicate Placed(host: Host, b: Bridge, e: Envelope, kind: Kind, sequence: nat)
  {
    && host.valid(e) && e.identity == b.identity && e.kind == kind && e.sequence == sequence
    && IsSafeReference(e.messageId) && IsDigest(e.payloadDigest)
  }

  predicate StatusMatches(host: Host, d: Dispatch, p: Payload)
  {
    p.Keys == STATUS_KEYS && NamesDispatch(host, d, p)
  }

  predicate ResultMatches(host: Host, d: Dispatch, e: Evidence, p: Payload)
    requires e.threadId.Some? && e.turnId.Some?
  {
    && p.Keys == STATUS_KEYS + {ResultCode} + TERMINAL_KEYS
    && NamesDispatch(host, d, p) && p[ResultCode] == Words(host.completedCode) && RepeatsEvidence(e, p)
  }

  predicate CancelledMatches(host: Host, d: Dispatch, e: Evidence, p: Payload)
    requires e.threadId.Some? && e.turnId.Some? && e.interrupt.Some?
  {
    && p.Keys == STATUS_KEYS + {ResultCode, InterruptRequestId, InterruptResponseHash} + TERMINAL_KEYS
    && NamesDispatch(host, d, p) && p[ResultCode] == Words(host.cancelledCode)
    && p[InterruptRequestId] == Number(e.interrupt.value.0) && p[InterruptResponseHash] == Words(e.interrupt.value.1)
    && RepeatsEvidence(e, p)
  }

  function RoundTripCandidate(
    host: Host, d: Dispatch, b: Bridge, e: Evidence, status: Envelope, result: Envelope): (c: Option<Candidate>)
  {
    if e.status != Completed || !TerminalAllowed(host, e) then None
    else if b.authGeneration != d.authGeneration || d.identity != b.identity then None
    else if !Placed(host, b, status, DispatchAccepted, 2) || !Placed(host, b, result, Result, 3) then None
    else if !StatusMatches(host, d, status.payload) || !ResultMatches(host, d, e, result.payload) then None
    else if status.issuedAt < d.issuedAt || result.issuedAt < status.issuedAt then None
    else if status.expiresAt > d.expiresAt || status.expiresAt > b.expiresAt then None
    else if result.expiresAt > d.expiresAt || result.expiresAt > b.expiresAt || result.issuedAt >= d.expiresAt then None
    else if status.messageId == result.messageId then None
    else
      var candidate := CandidateOf(host, d, b, e, [status, result]);
      if Hashable(host, candidate) then Some(candidate) else None
  }

  function CancellationCandidate(
    host: Host, d: Dispatch, b: Bridge, e: Evidence, frame: Envelope): (c: Option<Candidate>)
  {
    if e.status != Interrupted || !TerminalAllowed(host, e) then None
    else if b.authGeneration != d.authGeneration || d.identity != b.identity then None
    else if !Placed(host, b, frame, Cancelled, 2) || !CancelledMatches(host, d, e, frame.payload) then None
    else if frame.issuedAt < d.issuedAt || frame.issuedAt >= d.expiresAt || frame.expiresAt <= frame.issuedAt then None
    else if frame.expiresAt > d.expiresAt || frame.expiresAt > b.expiresAt then None
    else
      var candidate := CandidateOf(host, d, b, e, [frame]);
      if Hashable(host, candidate) then Some(candidate) else None
  }

  // ----- the adapter -----

  /** The clock samples of one execution, in the order they are taken. */
  datatype Clock = Clock(
    authenticated: int, run: int, first: int, second: int, write: int, written: int, lastWrite: int, lastWritten: int)

  predicate InOrder(c: Clock)
  {
    c.authenticated <= c.run <= c.first <= c.second <= c.write <= c.written <= c.lastWrite <= c.lastWritten
  }

  /** Nothing usable was delivered; all frames were delivered and recorded; or delivered and denied by the builder. */
  datatype Ending = Refused | Recorded(candidate: Candidate, frames: seq<Envelope>) | Unrecorded(frames: seq<Envelope>)

  function Max(a: int, b: int): int { if a > b then a else b }
  function Min(a: int, b: int): int { if a < b then a else b }

  predicate Bound(host: Host, d: Dispatch, b: Bridge)
  {
    && d.identity == b.identity && d.authGeneration == b.authGeneration
    && d.bridgeIdentityHash == host.bridgeIdentityHash(b) && d.secretBindingHash == host.secretBindingHash(b)
    && d.expiresAt <= b.expiresAt
  }

  predicate Authentic(host: Host, d: Dispatch, b: Bridge, now: int)
  {
    Bound(host, d, b) && d.issuedAt <= now < d.expiresAt && now < b.expiresAt
  }

  function Deadline(d: Dispatch, b: Bridge, now: int): int
  {
    Min(now + d.maximumDurationMs, Min(d.expiresAt, b.expiresAt))
  }

  /** The codec makes a line, the transport takes it, and there was time before and after. */
  predicate Delivered(host: Host, e: Envelope, deadline: int, write: int, written: int, accepted: bool)
  {
    host.encodes(e) && write < deadline && accepted && written < deadline
  }

  function Ended(frames: seq<Envelope>, candidate: Option<Candidate>): Ending
  {
    match candidate
    case Some(c) => Recorded(c, frames)
    case None => Unrecorded(frames)
  }

  /** An interrupted run: one cancellation frame. */
  function Cancel(host: Host, d: Dispatch, b: Bridge, e: Evidence, deadline: int, c: Clock, accepted: bool): (r: Ending)
    requires TerminalAllowed(host, e) && e.status == Interrupted
  {
    var first := Max(c.first, 0);
    if first >= deadline then Refused
    else
      var frame := CancelledFrame(host, d, b, e, first, deadline);
      if !Delivered(host, frame, deadline, c.write, c.written, accepted) then Refused
      else Ended([frame], CancellationCandidate(host, d, b, e, frame))
  }

  /** A completed run: a status frame and a result frame, the second never dated before the first. */
  function Complete(
    host: Host, d: Dispatch, b: Bridge, e: Evidence, deadline: int, c: Clock, accepted: bool,
    lastAccepted: bool): (r: Ending)
    requires TerminalAllowed(host, e)
  {
    var first := Max(c.first, 0);
    var second := Max(c.second, first);
    if second >= deadline then Refused
    else
      var status := StatusFrame(host, d, b, first, deadline);
      var result := ResultFrame(host, d, b, e, second, deadline);
      if !Delivered(host, status, deadline, c.write, c.written, accepted) ||
         !Delivered(host, result, deadline, c.lastWrite, c.lastWritten, lastAccepted) then Refused
      else Ended([status, result], RoundTripCandidate(host, d, b, e, status, result))
  }

  /**
   * One execution after the frame was verified; `evidence` is what the runner returned, `accepted`
   * what the transport did.
   */
  function Execute(
    host: Host, d: Dispatch, b: Bridge, evidence: Option<Evidence>, c: Clock, accepted: bool,
    lastAccepted: bool): (r: Ending)
  {
    var deadline := Deadline(d, b, c.authenticated);
    if !Authentic(host, d, b, c.authenticated) || c.run >= deadline || evidence.None? ||
      !TerminalAllowed(host, evidence.value) then Refused
    else if evidence.value.status == Interrupted then Cancel(host, d, b, evidence.value, deadline, c, accepted)
    else Complete(host, d, b, evidence.value, deadline, c, accepted, lastAccepted)
  }

  // ----- delivered frames are recorded -----

  lemma {:induction false} PrefixesDiffer(h: Text)
    ensures STATUS_PREFIX + h != RESULT_PREFIX + h
  {
    assert (STATUS_PREFIX + h)[11] == 115;
    assert (RESULT_PREFIX + h)[11] == 114;
  }

  lemma {:induction false} StatusPayloadNames(host: Host, d: Dispatch)
    ensures StatusPayload(host, d).Keys == STATUS_KEYS && NamesDispatch(host, d, StatusPayload(host, d))
  {
  }

  lemma {:induction false} TerminalPayloadNames(e: Evidence)
    requires e.threadId.Some? && e.turnId.Some?
    ensures TerminalPayload(e).Keys == TERMINAL_KEYS
  {
  }

  lemma {:induction false} TerminalPayloadRepeats(e: Evidence)
    requires e.threadId.Some? && e.turnId.Some?
    ensures TerminalPayload(e).Keys == TERMINAL_KEYS && RepeatsEvidence(e, TerminalPayload(e))
  {
    TerminalPayloadNames(e);
  }

  /** Extending a payload by the evidence fields keeps the names and repeats the evidence. */
  lemma {:induction false} PayloadParts(host: Host, d: Dispatch, e: Evidence, middle: Payload)
    requires e.threadId.Some? && e.turnId.Some?
    requires middle.Keys !! STATUS_KEYS && middle.Keys !! TERMINAL_KEYS
    ensures var p := StatusPayload(host, d) + middle + TerminalPayload(e);
            && p.Keys == STATUS_KEYS + middle.Keys + TERMINAL_KEYS
            && NamesDispatch(host, d, p) && RepeatsEvidence(e, p)
            && forall key :: key in middle ==> p[key] == middle[key]
  {
    StatusPayloadNames(host, d);
    TerminalPayloadRepeats(e);
    assert STATUS_KEYS !! TERMINAL_KEYS;
  }

  lemma {:induction false} DeliveredIsClean(host: Host, e: Evidence, frame: Envelope)
    requires Fair(host) && host.encodes(frame) && TerminalAllowed(host, e)
    requires TERMINAL_KEYS <= frame.payload.Keys && RepeatsEvidence(e, frame.payload)
    ensures host.clean(e.threadId.value) && host.clean(e.turnId.value)
  {
    assert frame.payload[TerminalThreadId] == Words(e.threadId.value);
    assert frame.payload[TerminalTurnId] == Words(e.turnId.value);
  }

  lemma {:induction false} EncodedReceipt(host: Host, frame: Envelope)
    requires Fair(host) && host.encodes(frame)
    ensures CleanReceipt(host, ReceiptOf(host, frame)) && IsDigest(frame.payloadDigest) &&
            IsSafeReference(frame.messageId)
  {
  }

  /** Everything a candidate says has been through canonical JSON before, or is a digest. */
  lemma {:induction false} CandidateIsHashable(host: Host, d: Dispatch, b: Bridge, e: Evidence, frames: seq<Envelope>)
    requires Fair(host) && CleanDispatch(host, d) && d.identity == b.identity && TerminalAllowed(host, e)
    requires host.clean(e.threadId.value) && host.clean(e.turnId.value)
    requires forall i :: 0 <= i < |frames| ==> host.encodes(frames[i])
    ensures Hashable(host, CandidateOf(host, d, b, e, frames))
  {
    var c := CandidateOf(host, d, b, e, frames);
    forall i | 0 <= i < |c.receipts|
      ensures CleanReceipt(host, c.receipts[i])
    {
      EncodedReceipt(host, frames[i]);
    }
  }

  lemma {:induction false} ResultPayloadMatches(host: Host, d: Dispatch, e: Evidence)
    requires e.threadId.Some? && e.turnId.Some?
    ensures ResultMatches(host, d, e, ResultPayload(host, d, e))
  {
    var middle: Payload := map[ResultCode := Words(host.completedCode)];
    PayloadParts(host, d, e, middle);
    assert ResultPayload(host, d, e)[ResultCode] == middle[ResultCode];
  }

  lemma {:induction false} InterruptPayloadShape(host: Host, e: Evidence)
    requires e.interrupt.Some?
    ensures var p := InterruptPayload(host, e);
            && p.Keys == {ResultCode, InterruptRequestId, InterruptResponseHash}
            && p.Keys !! STATUS_KEYS && p.Keys !! TERMINAL_KEYS
            && p[ResultCode] == Words(host.cancelledCode) && p[InterruptRequestId] == Number(e.interrupt.value.0)
            && p[InterruptResponseHash] == Words(e.interrupt.value.1)
  {
  }

  lemma {:induction false} CancelledPayloadMatches(host: Host, d: Dispatch, e: Evidence)
    requires e.threadId.Some? && e.turnId.Some? && e.interrupt.Some?
    ensures CancelledMatches(host, d, e, CancelledPayload(host, d, e))
  {
    InterruptPayloadShape(host, e);
    PayloadParts(host, d, e, InterruptPayload(host, e));
  }

  /** Matching frames are denied only for their dates. */
  lemma {:induction false} RoundTripAccepts(
    host: Host, d: Dispatch, b: Bridge, e: Evidence, status: Envelope, result: Envelope)
    requires Fair(host) && CleanDispatch(host, d) && Bound(host, d, b) && TerminalAllowed(host, e) &&
             e.status == Completed
    requires host.encodes(status) && status.identity == b.identity && status.kind == DispatchAccepted &&
             status.sequence == 2
    requires host.encodes(result) && result.identity == b.identity && result.kind == Result && result.sequence == 3
    requires StatusMatches(host, d, status.payload) && ResultMatches(host, d, e, result.payload)
    requires status.issuedAt <= result.issuedAt < d.expiresAt
    requires status.expiresAt <= d.expiresAt && result.expiresAt <= d.expiresAt && status.messageId != result.messageId
    ensures RoundTripCandidate(host, d, b, e, status, result) ==
            if status.issuedAt < d.issuedAt then None else Some(CandidateOf(host, d, b, e, [status, result]))
  {
    EncodedReceipt(host, status);
    EncodedReceipt(host, result);
    DeliveredIsClean(host, e, result);
    CandidateIsHashable(host, d, b, e, [status, result]);
  }

  lemma {:induction false} CancellationAccepts(host: Host, d: Dispatch, b: Bridge, e: Evidence, frame: Envelope)
    requires Fair(host) && CleanDispatch(host, d) && Bound(host, d, b) && TerminalAllowed(host, e) &&
             e.status == Interrupted
    requires host.encodes(frame) && frame.identity == b.identity && frame.kind == Cancelled && frame.sequence == 2
    requires CancelledMatches(host, d, e, frame.payload)
    requires frame.issuedAt < frame.expiresAt <= d.expiresAt
    ensures CancellationCandidate(host, d, b, e, frame) ==
            if frame.issuedAt < d.issuedAt then None else Some(CandidateOf(host, d, b, e, [frame]))
  {
    EncodedReceipt(host, frame);
    DeliveredIsClean(host, e, frame);
    CandidateIsHashable(host, d, b, e, [frame]);
  }

  /**
   * Once both frames are encoded, the round-trip builder denies exactly when the first is dated before
   * the dispatch.
   */
  lemma {:induction false} RoundTripBuilds(
    host: Host, d: Dispatch, b: Bridge, e: Evidence, first: int, second: int, deadline: int)
    requires Fair(host) && CleanDispatch(host, d) && Bound(host, d, b) && TerminalAllowed(host, e) &&
             e.status == Completed
    requires first <= second < deadline <= d.expiresAt
    requires host.encodes(StatusFrame(host, d, b, first, deadline)) &&
             host.encodes(ResultFrame(host, d, b, e, second, deadline))
    ensures var status := StatusFrame(host, d, b, first, deadline);
            var result := ResultFrame(host, d, b, e, second, deadline);
            RoundTripCandidate(host, d, b, e, status, result) ==
            if first < d.issuedAt then None else Some(CandidateOf(host, d, b, e, [status, result]))
  {
    StatusPayloadNames(host, d);
    ResultPayloadMatches(host, d, e);
    PrefixesDiffer(host.shortHash(d.id));
    RoundTripAccepts(host, d, b, e, StatusFrame(host, d, b, first, deadline),
      ResultFrame(host, d, b, e, second, deadline));
  }

  /** The same for the cancellation builder. */
  lemma {:induction false} CancellationBuilds(
    host: Host, d: Dispatch, b: Bridge, e: Evidence, first: int, deadline: int)
    requires Fair(host) && CleanDispatch(host, d) && Bound(host, d, b) && TerminalAllowed(host, e) &&
             e.status == Interrupted
    requires first < deadline <= d.expiresAt
    requires host.encodes(CancelledFrame(host, d, b, e, first, deadline))
    ensures var frame := CancelledFrame(host, d, b, e, first, deadline);
            CancellationCandidate(host, d, b, e, frame) == if first < d.issuedAt then None
              else Some(CandidateOf(host, d, b, e, [frame]))
  {
    CancelledPayloadMatches(host, d, e);
    CancellationAccepts(host, d, b, e, CancelledFrame(host, d, b, e, first, deadline));
  }

  /** Delivered frames go unrecorded exactly when the first is dated before the dispatch, at `first`. */
  ghost predicate RecordedUnlessEarly(host: Host, d: Dispatch, b: Bridge, e: Evidence, first: int, r: Ending)
    requires e.threadId.Some? && e.turnId.Some?
  {
    match r
    case Refused => true
    case Unrecorded(_) => first < d.issuedAt
    case Recorded(candidate, frames) =>
      && d.issuedAt <= first
      && (forall i :: 0 <= i < |frames| ==> host.encodes(frames[i]) && frames[i].sequence == i + 2)
      && candidate == CandidateOf(host, d, b, e, frames)
  }

  lemma {:induction false} EndedRecords(
    host: Host, d: Dispatch, b: Bridge, e: Evidence, first: int, frames: seq<Envelope>, candidate: Option<Candidate>)
    requires e.threadId.Some? && e.turnId.Some?
    requires candidate == if first < d.issuedAt then None else Some(CandidateOf(host, d, b, e, frames))
    requires forall i :: 0 <= i < |frames| ==> host.encodes(frames[i]) && frames[i].sequence == i + 2
    ensures RecordedUnlessEarly(host, d, b, e, first, Ended(frames, candidate))
  {
  }

  lemma {:induction false} CancelRecords(
    host: Host, d: Dispatch, b: Bridge, e: Evidence, deadline: int, c: Clock, accepted: bool)
    requires Fair(host) && CleanDispatch(host, d) && Bound(host, d, b) && deadline <= d.expiresAt
    requires TerminalAllowed(host, e) && e.status == Interrupted
    ensures RecordedUnlessEarly(host, d, b, e, Max(c.first, 0), Cancel(host, d, b, e, deadline, c, accepted))
  {
    var first := Max(c.first, 0);
    if first < deadline && host.encodes(CancelledFrame(host, d, b, e, first, deadline)) {
      CancellationBuilds(host, d, b, e, first, deadline);
      var frame := CancelledFrame(host, d, b, e, first, deadline);
      EndedRecords(host, d, b, e, first, [frame], CancellationCandidate(host, d, b, e, frame));
    }
  }

  lemma {:induction false} CompleteRecords(
    host: Host, d: Dispatch, b: Bridge, e: Evidence, deadline: int, c: Clock, accepted: bool, lastAccepted: bool)
    requires Fair(host) && CleanDispatch(host, d) && Bound(host, d, b) && deadline <= d.expiresAt
    requires TerminalAllowed(host, e) && e.status == Completed
    ensures RecordedUnlessEarly(host, d, b, e, Max(c.first, 0),
            Complete(host, d, b, e, deadline, c, accepted, lastAccepted))
  {
    var first := Max(c.first, 0);
    var second := Max(c.second, first);
    if second < deadline && host.encodes(StatusFrame(host, d, b, first, deadline)) &&
      host.encodes(ResultFrame(host, d, b, e, second, deadline)) {
      RoundTripBuilds(host, d, b, e, first, second, deadline);
      var status := StatusFrame(host, d, b, first, deadline);
      var result := ResultFrame(host, d, b, e, second, deadline);
      EndedRecords(host, d, b, e, first, [status, result], RoundTripCandidate(host, d, b, e, status, result));
    }
  }

  /**
   * Once its frames are delivered, an execution goes unrecorded exactly when the sample that dates
   * the first frame lies before the dispatch. Otherwise the record is the candidate of those frames.
   */
  lemma {:induction false} UnrecordedExactly(
    host: Host, d: Dispatch, b: Bridge, evidence: Option<Evidence>, c: Clock, accepted: bool, lastAccepted: bool)
    requires Fair(host) && CleanDispatch(host, d)
    ensures var r := Execute(host, d, b, evidence, c, accepted, lastAccepted);
            r == Refused ||
              (evidence.Some? && TerminalAllowed(host, evidence.value) && Authentic(host, d, b, c.authenticated) &&
                             RecordedUnlessEarly(host, d, b, evidence.value, Max(c.first, 0), r))
  {
    var deadline := Deadline(d, b, c.authenticated);
    if Authentic(host, d, b, c.authenticated) && evidence.Some? && TerminalAllowed(host, evidence.value) {
      if evidence.value.status == Interrupted {
        CancelRecords(host, d, b, evidence.value, deadline, c, accepted);
      } else {
        CompleteRecords(host, d, b, evidence.value, deadline, c, accepted, lastAccepted);
      }
    }
  }

  /** On a clock that never goes back, delivered frames are always recorded. */
  lemma {:induction false} DeliveredIsRecorded(
    host: Host, d: Dispatch, b: Bridge, evidence: Option<Evidence>, c: Clock, accepted: bool, lastAccepted: bool)
    requires Fair(host) && CleanDispatch(host, d) && InOrder(c)
    ensures !Execute(host, d, b, evidence, c, accepted, lastAccepted).Unrecorded?
  {
    UnrecordedExactly(host, d, b, evidence, c, accepted, lastAccepted);
  }

  // ----- why the clock matters -----

  /** A host whose codec is honest: it takes exactly the envelopes with a digest, a reference and a window. */
  function SampleHost(): Host
  {
    Host((t: Text) => true, (t: Text) => ZeroDigest(), (t: Text) => [97], (b: Bridge) => [], (b: Bridge) =>
      [], (p: Payload) => ZeroDigest(),
         (e: Envelope) => ZeroDigest(), (e: Envelope) => [97], (e: Envelope) => Wellformed(e), (e: Envelope) =>
           Wellformed(e),
         [97], [97], [97], ZeroDigest(), ZeroDigest())
  }

  predicate Wellformed(
    e: Envelope) { IsDigest(e.payloadDigest) && IsSafeReference(e.messageId) && e.issuedAt < e.expiresAt }

  const SAMPLE_IDENTITY: Identity := Identity([97], [97], [97], [97], [97])
  const SAMPLE_BRIDGE: Bridge := Bridge(SAMPLE_IDENTITY, 1, 0, 1000, [], [], [], [])

  function SampleDispatch(): Dispatch
  {
    Dispatch(SAMPLE_IDENTITY, 1, [97], [97], [97], [97], ZeroDigest(), ZeroDigest(), ZeroDigest(), [], [], 100, 1000,
      500)
  }

  function SampleEvidence(): Evidence
  {
    Evidence(Some([97]), Some([97]), Interrupted, ZeroDigest(), Some((4, ZeroDigest())),
      Usage(0, ZeroDigest(), 0, ZeroDigest(), false))
  }

  lemma {:induction false} SampleIsFair()
    ensures Fair(SampleHost()) && CleanDispatch(SampleHost(), SampleDispatch())
  {
  }

  lemma {:induction false} SampleFrameEncodes()
    ensures SampleHost().encodes(CancelledFrame(SampleHost(), SampleDispatch(), SAMPLE_BRIDGE, SampleEvidence(), 50,
            600))
  {
    var id := CANCELLED_PREFIX + [97];
    assert IsSafeReference(id);
  }

  /**
   * At a host that keeps every promise: authentication at 100, everything after it at 50. The frame
   * is encoded and delivered, and the builder denies it.
   */
  lemma {:induction false} BackwardClockLeavesFrameUnrecorded()
    ensures Fair(SampleHost()) && CleanDispatch(SampleHost(), SampleDispatch())
    ensures Execute(SampleHost(), SampleDispatch(), SAMPLE_BRIDGE, Some(SampleEvidence()),
                    Clock(100, 50, 50, 50, 50, 50, 50, 50), true, true).Unrecorded?
  {
    SampleIsFair();
    SampleFrameEncodes();
    var host := SampleHost();
    assert TerminalAllowed(host, SampleEvidence());
    assert Authentic(host, SampleDispatch(), SAMPLE_BRIDGE, 100);
    var frame := CancelledFrame(host, SampleDispatch(), SAMPLE_BRIDGE, SampleEvidence(), 50, 600);
    assert CancellationCandidate(host, SampleDispatch(), SAMPLE_BRIDGE, SampleEvidence(), frame) == None;
  }

  // ----- the runner's evidence is accepted -----

  /**
   * The runner's readings and hashes are digests and references, and the empty lists hash to the
   * adapter's constants.
   */
  ghost predicate Agrees<M(!new)>(host: Host, wire: Wire<M>)
  {
    && wire.progressHash([]) == Some(host.emptyProgressHash) && wire.tokenHash([]) == Some(host.emptyTokenHash)
    && (forall hs :: wire.progressHash(hs).Some? ==> IsDigest(wire.progressHash(hs).value))
    && (forall hs :: wire.tokenHash(hs).Some? ==> IsDigest(wire.tokenHash(hs).value))
    && (forall m, id :: wire.reader.interrupt(m, id).Some? ==> IsDigest(wire.reader.interrupt(m, id).value))
    && (forall m, threadId, turnId :: wire.reader.terminal(m, threadId, turnId).Some? ==>
          IsDigest(wire.reader.terminal(m, threadId, turnId).value.hash) && Refers(threadId) && Refers(turnId))
  }

  lemma {:induction false} SoundUsageAllowed<M(!new)>(
    host: Host, wire: Wire<M>, progress: seq<Text>, tokens: seq<Text>, u: Usage)
    requires Agrees(host, wire) && UsageOf(wire, progress, tokens) == Some(u) && |tokens| <= |progress| <= 127
    ensures UsageAllowed(host, u)
  {
    if |progress| == 0 { assert progress == []; }
    if |tokens| == 0 { assert tokens == []; }
  }

  /** Whatever a run returns, the adapter accepts. */
  lemma {:induction false} RunnerEvidenceIsAccepted<M(!new)>(
    host: Host, wire: Wire<M>, deadline: int, events: seq<Event<M>>)
    requires Agrees(host, wire)
    ensures match Run(wire, deadline, Start(wire), events).stage
            case Over(Returned(e)) => TerminalAllowed(host, e)
            case _ => true
  {
    EveryRunIsSound(wire, deadline, events);
    var last := Run(wire, deadline, Start(wire), events);
    match last.stage {
      case Over(Returned(e)) => SoundIsAllowed(host, wire, deadline, last, e);
      case _ =>
    }
  }

  lemma {:induction false} SoundIsAllowed<M(!new)>(host: Host, wire: Wire<M>, deadline: int, r: Runner<M>, e: Evidence)
    requires Agrees(host, wire) && Sound(wire, deadline, r, e)
    ensures TerminalAllowed(host, e)
  {
    SoundUsageAllowed(host, wire, r.progress, r.tokens, e.usage);
  }
}
