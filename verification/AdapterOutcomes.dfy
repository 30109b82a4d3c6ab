/** When the adapter delivers a validation's frames, in its clock samples and its transport's answers. */
module AdapterOutcomes {
  import opened Outcomes
  import opened Texts
  import opened AppServerMessages
  import opened ProtocolRunner
  import opened RuntimeAdapter

  /** The bridge is the one the dispatch was made for, and outlives it. */
  predicate ForThisBridge(host: Host, d: Dispatch, b: Bridge)
  {
    && d.identity.workspaceId == b.identity.workspaceId && d.identity.runtimeId == b.identity.runtimeId
    && d.identity.connectionId == b.identity.connectionId && d.identity.sessionId == b.identity.sessionId
    && d.identity.principal == b.identity.principal && d.authGeneration == b.authGeneration
    && d.bridgeIdentityHash == host.bridgeIdentityHash(b) && d.secretBindingHash == host.secretBindingHash(b)
    && d.expiresAt <= b.expiresAt
  }

  /** The deadline of an execution authenticated at `started`: the first of three instants. */
  predicate IsDeadline(d: Dispatch, b: Bridge, started: int, deadline: int)
  {
    && deadline <= started + d.maximumDurationMs && deadline <= d.expiresAt && deadline <= b.expiresAt
    && (deadline == started + d.maximumDurationMs || deadline == d.expiresAt || deadline == b.expiresAt)
  }

  /** The usage of at most 128 progress events, with the constants for empty lists. */
  predicate Accounts(host: Host, u: Usage)
  {
    && u.tokenCount <= u.progressCount <= 128 && IsDigest(u.progressHash) && IsDigest(u.tokenHash)
    && (u.progressCount > 0 || u.progressHash == host.emptyProgressHash)
    && (if u.tokenCount == 0 then u.tokenHash == host.emptyTokenHash && !u.observed else u.observed)
  }

  /** Evidence of a completed turn, with no interrupt. */
  predicate CompletedEvidence(host: Host, e: Evidence)
  {
    && e.threadId.Some? && IsSafeReference(e.threadId.value) && e.turnId.Some? && IsSafeReference(e.turnId.value)
    && e.status == Completed && e.interrupt == None && IsDigest(e.messageHash) && Accounts(host, e.usage)
  }

  /** Evidence of an interrupted turn, with the interrupt's id and the hash of its response. */
  predicate InterruptedEvidence(host: Host, e: Evidence)
  {
    && e.threadId.Some? && IsSafeReference(e.threadId.value) && e.turnId.Some? && IsSafeReference(e.turnId.value)
    && e.status == Interrupted && IsDigest(e.messageHash) && Accounts(host, e.usage)
    && e.interrupt.Some? && e.interrupt.value.0 >= 1 && IsDigest(e.interrupt.value.1)
  }

  lemma {:induction false} EvidenceExactly(host: Host, e: Evidence)
    ensures TerminalAllowed(host, e) <==> CompletedEvidence(host, e) || InterruptedEvidence(host, e)
  {
  }

  /** The authority is there when the execution starts, and when the runner is asked. */
  predicate MayRun(host: Host, d: Dispatch, b: Bridge, c: Clock, deadline: int)
  {
    && ForThisBridge(host, d, b)
    && d.issuedAt <= c.authenticated && c.authenticated < d.expiresAt && c.authenticated < b.expiresAt &&
       c.run < deadline
  }

  lemma {:induction false} StartsExactly(host: Host, d: Dispatch, b: Bridge, c: Clock, deadline: int)
    requires IsDeadline(d, b, c.authenticated, deadline)
    ensures deadline == Deadline(d, b, c.authenticated)
    ensures MayRun(host, d, b, c, deadline) <==> Authentic(host, d, b, c.authenticated) && c.run < deadline
  {
  }

  /** Without evidence, or with evidence that is neither, nothing is delivered. */
  lemma {:induction false} NothingElseIsDelivered(
    host: Host, d: Dispatch, b: Bridge, evidence: Option<Evidence>, c: Clock, accepted: bool, lastAccepted: bool)
    requires evidence.Some? ==> !CompletedEvidence(host, evidence.value) && !InterruptedEvidence(host, evidence.value)
    ensures Execute(host, d, b, evidence, c, accepted, lastAccepted) == Refused
  {
    if evidence.Some? { EvidenceExactly(host, evidence.value); }
  }

  /** A sample as a frame's date: never before 1970, nor before the frame before it. */
  function DateOf(sample: int, earliest: int): (date: int) { if sample < earliest then earliest else sample }

  /** Both frames are dated, encoded, written and taken in time. */
  predicate BothGo(
    host: Host, status: Envelope, result: Envelope, second: int, c: Clock, deadline: int, accepted: bool,
    lastAccepted: bool)
  {
    && second < deadline && host.encodes(status) && host.encodes(result)
    && c.write < deadline && accepted && c.written < deadline
    && c.lastWrite < deadline && lastAccepted && c.lastWritten < deadline
  }

  lemma {:induction false} CompleteGoes(
    host: Host, d: Dispatch, b: Bridge, e: Evidence, c: Clock, deadline: int, accepted: bool, lastAccepted: bool)
    requires TerminalAllowed(host, e)
    ensures var first := DateOf(c.first, 0);
            var second := DateOf(c.second, first);
            var status := StatusFrame(host, d, b, first, deadline);
            var result := ResultFrame(host, d, b, e, second, deadline);
            Complete(host, d, b, e, deadline, c, accepted, lastAccepted) ==
            if BothGo(host, status, result, second, c, deadline, accepted, lastAccepted)
            then RuntimeAdapter.Ended([status, result], RoundTripCandidate(host, d, b, e, status, result)) else Refused
  {
    assert Max(c.first, 0) == DateOf(c.first, 0);
    assert Max(c.second, DateOf(c.first, 0)) == DateOf(c.second, DateOf(c.first, 0));
  }

  /** The one frame is dated, encoded, written and taken in time. */
  predicate OneGoes(host: Host, frame: Envelope, first: int, c: Clock, deadline: int, accepted: bool)
  {
    first < deadline && host.encodes(frame) && c.write < deadline && accepted && c.written < deadline
  }

  lemma {:induction false} CancelGoes(
    host: Host, d: Dispatch, b: Bridge, e: Evidence, c: Clock, deadline: int, accepted: bool)
    requires TerminalAllowed(host, e) && e.status == Interrupted
    ensures var first := DateOf(c.first, 0);
            var frame := CancelledFrame(host, d, b, e, first, deadline);
            Cancel(host, d, b, e, deadline, c, accepted) ==
            if OneGoes(host, frame, first, c, deadline, accepted)
            then RuntimeAdapter.Ended([frame], CancellationCandidate(host, d, b, e, frame)) else Refused
  {
  }

  /**
   * A completed run is delivered exactly when the dispatch is for this bridge, authentication and run
   * lie in the windows, both frames are dated and written and taken before the deadline, both can be
   * encoded, and the transport accepts both. Then it is recorded, with exactly these two frames,
   * unless the first is dated before the dispatch.
   */
  lemma {:induction false} CompletedIsDelivered(
    host: Host, d: Dispatch, b: Bridge, e: Evidence, c: Clock, deadline: int, accepted: bool, lastAccepted: bool)
    requires Fair(host) && CleanDispatch(host, d)
    requires CompletedEvidence(host, e) && IsDeadline(d, b, c.authenticated, deadline)
    ensures var first := DateOf(c.first, 0);
            var second := DateOf(c.second, first);
            var status := StatusFrame(host, d, b, first, deadline);
            var result := ResultFrame(host, d, b, e, second, deadline);
            Execute(host, d, b, Some(e), c, accepted, lastAccepted) ==
            if MayRun(host, d, b, c, deadline) &&
              BothGo(host, status, result, second, c, deadline, accepted, lastAccepted)
            then if first < d.issuedAt then Unrecorded([status, result])
                 else Recorded(CandidateOf(host, d, b, e, [status, result]), [status, result])
            else Refused
  {
    var first := DateOf(c.first, 0);
    var second := DateOf(c.second, first);
    var status := StatusFrame(host, d, b, first, deadline);
    var result := ResultFrame(host, d, b, e, second, deadline);
    EvidenceExactly(host, e);
    StartsExactly(host, d, b, c, deadline);
    CompleteGoes(host, d, b, e, c, deadline, accepted, lastAccepted);
    if MayRun(host, d, b, c, deadline) && BothGo(host, status, result, second, c, deadline, accepted, lastAccepted) {
      RoundTripBuilds(host, d, b, e, first, second, deadline);
    }
  }

  /** The same for an interrupted run and its one frame. */
  lemma {:induction false} InterruptedIsDelivered(
    host: Host, d: Dispatch, b: Bridge, e: Evidence, c: Clock, deadline: int, accepted: bool, lastAccepted: bool)
    requires Fair(host) && CleanDispatch(host, d)
    requires InterruptedEvidence(host, e) && IsDeadline(d, b, c.authenticated, deadline)
    ensures var first := DateOf(c.first, 0);
            var frame := CancelledFrame(host, d, b, e, first, deadline);
            Execute(host, d, b, Some(e), c, accepted, lastAccepted) ==
            if MayRun(host, d, b, c, deadline) && OneGoes(host, frame, first, c, deadline, accepted)
            then if first < d.issuedAt then Unrecorded([frame])
                 else Recorded(CandidateOf(host, d, b, e, [frame]), [frame])
            else Refused
  {
    var first := DateOf(c.first, 0);
    EvidenceExactly(host, e);
    StartsExactly(host, d, b, c, deadline);
    CancelGoes(host, d, b, e, c, deadline, accepted);
    if MayRun(host, d, b, c, deadline) &&
      OneGoes(host, CancelledFrame(host, d, b, e, first, deadline), first, c, deadline, accepted) {
      CancellationBuilds(host, d, b, e, first, deadline);
    }
  }

  // ----- what the frames say -----

  /** Which frame is which: the bridge's identity, its place, its dates, and a digest and a tag of what it says. */
  predicate FrameOf(
    host: Host, b: Bridge, frame: Envelope, kind: Kind, sequence: nat, issuedAt: int, expiresAt: int, payload: Payload)
  {
    && frame.identity == b.identity && frame.kind == kind && frame.sequence == sequence
    && frame.issuedAt == issuedAt && frame.expiresAt == expiresAt
    && frame.payload == payload && frame.payloadDigest == host.payloadDigest(payload)
    && frame.mac == host.mac(frame.(mac := []))
  }

  lemma {:induction false} FramesSay(
    host: Host, d: Dispatch, b: Bridge, e: Evidence, first: int, second: int, deadline: int)
    requires e.threadId.Some? && e.turnId.Some?
    ensures FrameOf(host, b, StatusFrame(host, d, b, first, deadline), DispatchAccepted, 2, first, deadline,
              StatusPayload(host, d))
    ensures FrameOf(host, b, ResultFrame(host, d, b, e, second, deadline), RuntimeAdapter.Result, 3, second, deadline,
              ResultPayload(host, d, e))
    ensures e.interrupt.Some? ==>
            FrameOf(host, b, CancelledFrame(host, d, b, e, first, deadline), RuntimeAdapter.Cancelled, 2, first,
              deadline,
              CancelledPayload(host, d, e))
  {
  }
}
