/** What the outcome of an owned process session says about its process, and when a session gets there. */
module SessionOutcomes {
  import opened Outcomes
  import opened Texts
  import opened ProcessSessions

  // ----- an exit is proved -----

  /** A result for this session, with the state EXITED and a code or a signal, dated inside the request's window. */
  ghost predicate ShowsExit(request: Request, r: CloseResult)
  {
    && ((exists code: int ::
          0 <= code <= 255 &&
          r == CloseResult(request.binding, request.dispatchId, request.dispatchHash, request.sessionId, true,
                           Some(code), None, r.closedAt)) ||
       (exists signal: Text ::
          IsSafeReference(signal) &&
          r == CloseResult(request.binding, request.dispatchId, request.dispatchHash, request.sessionId, true,
                           None, Some(signal), r.closedAt)))
    && request.issuedAt <= r.closedAt && r.closedAt <= request.expiresAt
  }

  /** The exit as the coordinator checks it at an instant. */
  lemma {:induction false} ProofExactly(request: Request, r: CloseResult, at: int)
    ensures ProvesExit(r, request, at) <==> ShowsExit(request, r) && r.closedAt <= at
  {
    var byCode := CloseResult(request.binding, request.dispatchId, request.dispatchHash, request.sessionId, true,
                              r.exitCode, None, r.closedAt);
    var bySignal := CloseResult(request.binding, request.dispatchId, request.dispatchHash, request.sessionId, true,
                                None, r.signal, r.closedAt);
    if ProvesExit(r, request, at) {
      assert r == byCode || r == bySignal;
    }
  }

  /** The call has gone on after its close: to its completion, or to its frames. */
  predicate GoesOn(c: Call) { c.stage.Completing? || c.stage.Sending? || Completed in c.trail || Framed in c.trail }

  /** One of the events closed this call with a result that shows the exit. */
  ghost predicate ProvedBy(c: Call, k: nat, events: seq<Event>)
  {
    exists m: nat, r: CloseResult, observed: int, evidence: int ::
      && m < |events| && events[m] == CloseSettles(k, Some(r), observed, evidence)
      && ShowsExit(c.request, r) && r.closedAt <= observed && (GoesOn(c) ==> r.closedAt <= evidence)
  }

  ghost predicate AllProved(s: State, events: seq<Event>)
  {
    forall k :: 0 <= k < |s.calls| && (Exited in s.calls[k].trail || GoesOn(s.calls[k])) ==>
      ProvedBy(s.calls[k], k, events)
  }

  lemma {:induction false} ProofStays(c: Call, next: Call, k: nat, events: seq<Event>, e: Event)
    requires ProvedBy(c, k, events) && next.request == c.request && (GoesOn(next) ==> GoesOn(c))
    ensures ProvedBy(next, k, events + [e])
  {
    var m: nat, r, observed, evidence :|
      && m < |events| && events[m] == CloseSettles(k, Some(r), observed, evidence)
      && ShowsExit(c.request, r) && r.closedAt <= observed && (GoesOn(c) ==> r.closedAt <= evidence);
    assert (events + [e])[m] == CloseSettles(k, Some(r), observed, evidence);
  }

  /** A step of a call that has not closed, or that closes now. */
  lemma {:induction false} StepProves(c: Call, k: nat, events: seq<Event>, e: Event)
    requires Ordered(c) && !e.Begins? && e.call == k
    requires Exited in c.trail || GoesOn(c) ==> ProvedBy(c, k, events)
    ensures var t := StepCall(c, e); Exited in t.trail || GoesOn(t) ==> ProvedBy(t, k, events + [e])
  {
    var t := StepCall(c, e);
    if c.stage.Closing? && e.CloseSettles? && e.result.Some? {
      ProofExactly(c.request, e.result.value, e.observed);
      ProofExactly(c.request, e.result.value, e.evidence);
      assert (events + [e])[|events|] == e;
      if Exited in t.trail || GoesOn(t) {
        assert e == CloseSettles(k, Some(e.result.value), e.observed, e.evidence);
        assert ProvedBy(t, k, events + [e]);
      }
    } else if Exited in t.trail || GoesOn(t) {
      assert Exited in c.trail || GoesOn(c);
      ProofStays(c, t, k, events, e);
    }
  }

  lemma {:induction false} RunProves(events: seq<Event>)
    ensures AllProved(Run(START, events), events)
    decreases |events|
  {
    if events != [] {
      var last := |events| - 1;
      var before, e := events[..last], events[last];
      assert events == before + [e];
      RunProves(before);
      RunLast(START, before, e);
      RunOrdered(START, before);
      var s := Run(START, before);
      var t := Apply(s, e);
      forall k | 0 <= k < |t.calls| && (Exited in t.calls[k].trail || GoesOn(t.calls[k]))
        ensures ProvedBy(t.calls[k], k, events)
      {
        if !e.Begins? && e.call == k {
          StepProves(s.calls[k], k, before, e);
        } else {
          assert t.calls[k] == s.calls[k];
          ProofStays(s.calls[k], t.calls[k], k, before, e);
        }
      }
    }
  }

  /**
   * In every run, whatever the clock does: a call whose trail shows the exit was closed with a result
   * of this very session, exited, by a code from 0 to 255 or by a signal and not both, dated inside
   * the request's window and not after the sample that observed it; if the call went on to its
   * completion or its frames, not after the evidence's sample either.
   */
  lemma {:induction false} EveryExitIsProved(events: seq<Event>, k: nat)
    requires k < |Run(START, events).calls|
    ensures var c := Run(START, events).calls[k];
            Exited in c.trail || Completed in c.trail || Framed in c.trail ==>
              exists m: nat, r: CloseResult, observed: int, evidence: int ::
                && m < |events| && events[m] == CloseSettles(k, Some(r), observed, evidence)
                && ShowsExit(c.request, r) && r.closedAt <= observed
                && (Completed in c.trail || Framed in c.trail ==> r.closedAt <= evidence)
  {
    RunProves(events);
    var c := Run(START, events).calls[k];
    if Exited in c.trail || Completed in c.trail || Framed in c.trail {
      assert ProvedBy(c, k, events);
      var m: nat, r, observed, evidence :|
        && m < |events| && events[m] == CloseSettles(k, Some(r), observed, evidence)
        && ShowsExit(c.request, r) && r.closedAt <= observed && (GoesOn(c) ==> r.closedAt <= evidence);
    }
  }

  /** A call that ran has given its id back exactly if its process has exited. */
  predicate HoldsUntilExit(c: Call) { Ran in c.trail ==> (c.released <==> Exited in c.trail) }

  lemma {:induction false} StepHolds(c: Call, e: Event)
    requires Ordered(c) && HoldsUntilExit(c)
    ensures HoldsUntilExit(StepCall(c, e))
  {
  }

  /**
   * In every run, a call that ran releases its id if and only if its exit has been proved: else the id
   * stays active.
   */
  lemma {:induction false} RanHoldsUntilExit(events: seq<Event>, k: nat)
    requires k < |Run(START, events).calls|
    ensures var s := Run(START, events);
            Ran in s.calls[k].trail ==>
              (s.calls[k].released <==> Exited in s.calls[k].trail) &&
              (Exited !in s.calls[k].trail ==> s.calls[k].id in s.tables.active)
  {
    HeldInRuns(events);
    OneLivePerId(START, events);
  }

  lemma {:induction false} HeldInRuns(events: seq<Event>)
    ensures forall k :: 0 <= k < |Run(START, events).calls| ==> HoldsUntilExit(Run(START, events).calls[k])
    decreases |events|
  {
    if events != [] {
      var last := |events| - 1;
      var before, e := events[..last], events[last];
      assert events == before + [e];
      HeldInRuns(before);
      RunLast(START, before, e);
      RunOrdered(START, before);
      var s := Run(START, before);
      if !e.Begins? && e.call < |s.calls| { StepHolds(s.calls[e.call], e); }
    }
  }

  // ----- when a call sends its frames -----

  /** What answers the awaits of one call, in their order. */
  datatype Answers = Answers(
    claimed: bool, answer: Opening, ready: bool, runAt: int, deniedAt: int, terminal: bool, ranAt: int,
    result: Option<CloseResult>, observed: int, evidence: int, completed: bool)

  function Events(k: nat, a: Answers): (events: seq<Event>)
  {
    [ClaimSettles(k, a.claimed), OpenSettles(k, a.answer, a.ready, a.runAt, a.deniedAt),
     RunSettles(k, a.terminal, a.ranAt), CloseSettles(k, a.result, a.observed, a.evidence),
     CompleteSettles(k, a.completed), Sends(k)]
  }

  // The call after the last two, three, ... of these events.
  function AfterComplete(c: Call, k: nat, a: Answers): Call
  {
    StepCall(StepCall(c, CompleteSettles(k, a.completed)), Sends(k))
  }
  function AfterClose(c: Call, k: nat, a: Answers): Call
  {
    AfterComplete(StepCall(c, CloseSettles(k, a.result, a.observed, a.evidence)), k, a)
  }
  function AfterRun(c: Call, k: nat, a: Answers): Call
  {
    AfterClose(StepCall(c, RunSettles(k, a.terminal, a.ranAt)), k, a)
  }
  function AfterOpen(c: Call, k: nat, a: Answers): Call
  {
    AfterRun(StepCall(c, OpenSettles(k, a.answer, a.ready, a.runAt, a.deniedAt)), k, a)
  }

  lemma {:induction false} CallSteps(s: State, k: nat, a: Answers)
    requires k < |s.calls|
    ensures var t := Run(s, Events(k, a));
            k < |t.calls| && t.calls[k] == AfterOpen(StepCall(s.calls[k], ClaimSettles(k, a.claimed)), k, a)
  {
    var e := Events(k, a);
    assert e == e[..5] + [e[5]];
    RunLast(s, e[..5], e[5]);
    RunFive(s, e[..5]);
  }

  /** A call that is over, or has missed its completion, sends nothing. */
  lemma {:induction false} CompletingFrames(c: Call, k: nat, a: Answers)
    requires (c.stage == Completing && c.trail == EXITED) || c.stage == Done
    ensures c.stage == Done ==> AfterComplete(c, k, a) == c
    ensures c.stage == Completing ==>
            if a.completed then AfterComplete(c, k, a).trail == COMPLETED + [Framed]
              else AfterComplete(c, k, a).trail == EXITED
  {
    assert EXITED + [Completed] == COMPLETED;
  }

  /** The close result lets a terminal call go on. */
  ghost predicate ClosesWell(request: Request, a: Answers)
  {
    && a.result.Some? && ShowsExit(request, a.result.value)
    && a.result.value.closedAt <= a.observed && a.result.value.closedAt <= a.evidence
  }

  lemma {:induction false} ClosingFrames(c: Call, k: nat, a: Answers)
    requires c.stage.Closing? && Framed !in c.trail && (c.stage.terminal ==> c.trail == RAN)
    ensures var t := AfterClose(c, k, a);
            if c.stage.terminal && ClosesWell(c.request, a) && a.completed then t.trail == COMPLETED + [Framed]
            else Framed !in t.trail
  {
    if a.result.Some? {
      ProofExactly(c.request, a.result.value, a.observed);
      ProofExactly(c.request, a.result.value, a.evidence);
    }
    assert RAN + [Exited, Destroyed] == EXITED;
    CompletingFrames(StepCall(c, CloseSettles(k, a.result, a.observed, a.evidence)), k, a);
  }

  lemma {:induction false} DoneFrames(c: Call, k: nat, a: Answers)
    requires c.stage == Done
    ensures AfterOpen(c, k, a) == c && AfterRun(c, k, a) == c && AfterClose(c, k, a) == c
  {
  }

  lemma {:induction false} RunningFrames(c: Call, k: nat, a: Answers)
    requires c.stage == Running && c.trail == RAN
    ensures var t := AfterRun(c, k, a);
            if a.terminal && a.ranAt < c.request.expiresAt && ClosesWell(c.request, a) && a.completed
            then t.trail == COMPLETED + [Framed] else Framed !in t.trail
  {
    var next := StepCall(c, RunSettles(k, a.terminal, a.ranAt));
    if next.stage == Done { DoneFrames(next, k, a); } else { ClosingFrames(next, k, a); }
  }

  lemma {:induction false} OpeningFrames(c: Call, k: nat, a: Answers)
    requires c.stage == Opening && c.trail == [Claimed]
    ensures var t := AfterOpen(c, k, a);
            if && a.answer == Usable && a.ready && c.request.issuedAt <= a.runAt < c.request.expiresAt
               && a.terminal && a.ranAt < c.request.expiresAt && ClosesWell(c.request, a) && a.completed
            then t.trail == COMPLETED + [Framed] else Framed !in t.trail
  {
    var next := StepCall(c, OpenSettles(k, a.answer, a.ready, a.runAt, a.deniedAt));
    assert [Claimed] + [Opened, Ran] == RAN;
    if next.stage == Done {
      DoneFrames(next, k, a);
    } else if next.stage == Running {
      RunningFrames(next, k, a);
    } else {
      assert StepCall(next, RunSettles(k, a.terminal, a.ranAt)) == next;
      ClosingFrames(next, k, a);
    }
  }

  /**
   * A call that has entered sends its frames exactly when the claim succeeds, usable streams open, the
   * run starts and ends inside the request's window with a terminal result, the close result shows the
   * exit not after either sample, and the completion succeeds.
   */
  lemma {:induction false} FramesExactly(s: State, id: Text, request: Request, now: int, a: Answers)
    requires Enters(s, Begins(id, request, now), id)
    ensures var t := Run(Apply(s, Begins(id, request, now)), Events(|s.calls|, a));
            |s.calls| < |t.calls| &&
            var trail := t.calls[|s.calls|].trail;
            if && a.claimed && a.answer == Usable && a.ready && request.issuedAt <= a.runAt < request.expiresAt
               && a.terminal && a.ranAt < request.expiresAt
               && a.result.Some? && ShowsExit(request, a.result.value)
               && a.result.value.closedAt <= a.observed && a.result.value.closedAt <= a.evidence
               && a.completed
            then trail == [Claimed, Opened, Ran, Exited, Destroyed, Completed, Framed]
            else Framed !in trail
  {
    var k := |s.calls|;
    var t := Apply(s, Begins(id, request, now));
    CallSteps(t, k, a);
    var c := StepCall(t.calls[k], ClaimSettles(k, a.claimed));
    if c.stage == Done { DoneFrames(c, k, a); } else { OpeningFrames(c, k, a); }
    assert COMPLETED + [Framed] == [Claimed, Opened, Ran, Exited, Destroyed, Completed, Framed];
  }
}
