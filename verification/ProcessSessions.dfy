/**
 * Owned process sessions: each call claims, opens, runs the protocol, proves the process exited,
 * completes, and only then sends frames. Any number of calls are suspended at once; an event is what
 * resumes one of them, with the clock samples its next step takes.
 */
module ProcessSessions {
  import opened Outcomes
  import opened Texts
  import opened OnceTables

  /** What a close request names and the window it may fall in. */
  datatype Request = Request(
    binding: Text, dispatchId: Text, dispatchHash: Text, sessionId: Text, issuedAt: int, expiresAt: int)

  datatype CloseResult = CloseResult(
    binding: Text, dispatchId: Text, dispatchHash: Text, sessionId: Text, exited: bool,
    exitCode: Option<int>, signal: Option<Text>, closedAt: int)

  /** The result is about this session and shows an exit, by code or by signal, not later than `observed`. */
  predicate ProvesExit(r: CloseResult, request: Request, observed: int)
  {
    && r.binding == request.binding && r.dispatchId == request.dispatchId && r.dispatchHash == request.dispatchHash
    && r.sessionId == request.sessionId && r.exited
    && (r.exitCode.Some? ==> 0 <= r.exitCode.value <= 255)
    && (r.signal.Some? ==> IsSafeReference(r.signal.value))
    && (r.exitCode.Some? <==> r.signal.None?)
    && request.issuedAt <= r.closedAt <= request.expiresAt && r.closedAt <= observed
  }

  /** What a call has done to the outside, in order. */
  datatype Effect = Claimed | Opened | Ran | Exited | Destroyed | Completed | Framed

  datatype Stage = Claiming | Opening | Running | Closing(terminal: bool) | Completing | Sending | Done

  datatype Call = Call(id: Text, request: Request, entered: int, stage: Stage, trail: seq<Effect>, released: bool)

  datatype Opening = Denied | Unusable | Usable

  datatype Event =
    | Begins(id: Text, request: Request, now: int)
    | ClaimSettles(call: nat, ok: bool)
    | OpenSettles(call: nat, answer: Opening, ready: bool, now: int, later: int)
    | RunSettles(call: nat, terminal: bool, now: int)
    | CloseSettles(call: nat, result: Option<CloseResult>, observed: int, evidence: int)
    | CompleteSettles(call: nat, ok: bool)
    | Sends(call: nat)
    | SendSettles(call: nat)

  // ----- one call -----

  function Did(c: Call, effects: seq<Effect>): Call { c.(trail := c.trail + effects) }

  function Finish(c: Call): Call { c.(stage := Done, released := true) }

  /** Closing needs a millisecond of authority; without it the streams are destroyed and the id stays active. */
  function Close(c: Call, terminal: bool, now: int): Call
  {
    if now >= c.request.expiresAt then Did(c, [Destroyed]).(stage := Done) else c.(stage := Closing(terminal))
  }

  /** The protocol run checks its own authority; a run that may not start closes the session at once. */
  function Open(c: Call, answer: Opening, ready: bool, now: int, later: int): Call
  {
    match answer
    case Denied => Finish(c)
    case Unusable => Finish(Did(c, [Opened, Destroyed]))
    case Usable =>
      if ready && c.request.issuedAt <= now < c.request.expiresAt
      then Did(c, [Opened, Ran]).(stage := Running)
      else Close(Did(c, [Opened]), false, later)
  }

  /** A close that proves nothing leaves the id active. */
  function Closed(c: Call, terminal: bool, result: Option<CloseResult>, observed: int, evidence: int): Call
  {
    match result
    case None => Did(c, [Destroyed]).(stage := Done)
    case Some(r) =>
      if !ProvesExit(r, c.request, observed) then Did(c, [Destroyed]).(stage := Done)
      else
        var exited := Did(c, [Exited, Destroyed]);
        if !terminal || !ProvesExit(r, c.request, evidence) then Finish(exited)
        else exited.(stage := Completing, released := true)
  }

  function StepCall(c: Call, e: Event): (r: Call)
  {
    match (c.stage, e)
    case (Claiming, ClaimSettles(_, ok)) => if ok then Did(c, [Claimed]).(stage := Opening) else Finish(c)
    case (Opening, OpenSettles(_, answer, ready, now, later)) => Open(c, answer, ready, now, later)
    case (Running, RunSettles(_, terminal, now)) => Close(c, terminal, now)
    case (Closing(terminal), CloseSettles(_, result, observed, evidence)) =>
      Closed(c, terminal, result, observed, evidence)
    case (Completing, CompleteSettles(_, ok)) =>
      if ok then Did(c, [Completed]).(stage := Sending) else c.(stage := Done)
    case (Sending, Sends(_)) => Did(c, [Framed])
    case (Sending, SendSettles(_)) => c.(stage := Done)
    case _ => c
  }

  const RAN: seq<Effect> := [Claimed, Opened, Ran]
  const EXITED: seq<Effect> := [Claimed, Opened, Ran, Exited, Destroyed]
  const COMPLETED: seq<Effect> := [Claimed, Opened, Ran, Exited, Destroyed, Completed]

  /** Frames come after everything else, in this order. */
  predicate FramesLast(trail: seq<Effect>)
  {
    |COMPLETED| <= |trail| && trail[..|COMPLETED|] == COMPLETED && forall i :: |COMPLETED| <= i < |trail| ==>
      trail[i] == Framed
  }

  /** A trail a finished call may have. */
  predicate Finished(trail: seq<Effect>)
  {
    (Framed in trail ==> FramesLast(trail)) && (Opened in trail ==> Destroyed in trail)
  }

  /** Where a call stands and what it has done. */
  predicate Ordered(c: Call)
  {
    match c.stage
    case Claiming => c.trail == [] && !c.released
    case Opening => c.trail == [Claimed] && !c.released
    case Running => c.trail == RAN && !c.released
    case Closing(terminal) => !c.released && (c.trail == RAN || (!terminal && c.trail == [Claimed, Opened]))
    case Completing => c.trail == EXITED && c.released
    case Sending => FramesLast(c.trail) && c.released
    case Done => Finished(c.trail)
  }

  /** Destroying the streams last is a way to finish before any frame. */
  lemma {:induction false} DestroyedFinishes(trail: seq<Effect>)
    requires Framed !in trail
    ensures Finished(trail + [Destroyed])
  {
    assert (trail + [Destroyed])[|trail|] == Destroyed;
  }

  lemma {:induction false} CloseOrdered(c: Call, terminal: bool, now: int)
    requires (c.trail == RAN || (!terminal && c.trail == [Claimed, Opened])) && !c.released
    ensures Ordered(Close(c, terminal, now))
  {
    DestroyedFinishes(c.trail);
  }

  lemma {:induction false} ClosedOrdered(
    c: Call, terminal: bool, result: Option<CloseResult>, observed: int, evidence: int)
    requires Ordered(c) && c.stage == Closing(terminal)
    ensures Ordered(Closed(c, terminal, result, observed, evidence))
  {
    if terminal { assert c.trail == RAN && RAN + [Exited, Destroyed] == EXITED; }
    DestroyedFinishes(c.trail);
    DestroyedFinishes(c.trail + [Exited]);
    assert c.trail + [Exited] + [Destroyed] == c.trail + [Exited, Destroyed];
  }

  lemma {:induction false} OpenOrdered(c: Call, answer: Opening, ready: bool, now: int, later: int)
    requires c.trail == [Claimed] && !c.released
    ensures Ordered(Open(c, answer, ready, now, later))
  {
    assert c.trail + [Opened, Destroyed] == c.trail + [Opened] + [Destroyed];
    DestroyedFinishes(c.trail + [Opened]);
    assert c.trail + [Opened] == [Claimed, Opened] && c.trail + [Opened, Ran] == RAN;
    if answer == Usable && !(ready && c.request.issuedAt <= now < c.request.expiresAt) {
      CloseOrdered(Did(c, [Opened]), false, later);
    }
  }

  lemma {:induction false} LateOrdered(c: Call, e: Event)
    requires Ordered(c) && (c.stage.Completing? || c.stage.Sending?)
    ensures Ordered(StepCall(c, e))
  {
    assert EXITED + [Completed] == COMPLETED;
    assert EXITED[4] == Destroyed && Framed !in EXITED;
    if c.stage.Sending? {
      assert c.trail[4] == c.trail[..|COMPLETED|][4] == Destroyed;
      assert (c.trail + [Framed])[..|COMPLETED|] == c.trail[..|COMPLETED|];
    }
  }

  lemma {:induction false} StepOrdered(c: Call, e: Event)
    requires Ordered(c)
    ensures Ordered(StepCall(c, e))
  {
    match (c.stage, e) {
      case (Opening, OpenSettles(_, answer, ready, now, later)) => OpenOrdered(c, answer, ready, now, later);
      case (Running, RunSettles(_, terminal, now)) => CloseOrdered(c, terminal, now);
      case (Closing(terminal), CloseSettles(_, result, observed, evidence)) =>
        ClosedOrdered(c, terminal, result, observed, evidence);
      case (Completing, _) => LateOrdered(c, e);
      case (Sending, _) => LateOrdered(c, e);
      case _ =>
    }
  }

  // ----- the coordinator -----

  datatype State = State(tables: Tables, calls: seq<Call>)

  const START: State := State(EMPTY, [])

  function Apply(s: State, e: Event): (r: State)
  {
    match e
    case Begins(id, request, now) =>
      (match EnterDispatch(s.tables, id, request.expiresAt, now)
       case (tables, Admitted) => State(tables, s.calls + [Call(id, request, now, Claiming, [], false)])
       case (tables, _) => s.(tables := tables))
    case _ =>
      if e.call >= |s.calls| then s
      else
        var c := s.calls[e.call];
        var next := StepCall(c, e);
        State(if next.released && !c.released then Leave(s.tables, c.id) else s.tables, s.calls[e.call := next])
  }

  function Run(s: State, events: seq<Event>): (r: State)
    decreases |events|
  {
    if events == [] then s else Run(Apply(s, events[0]), events[1..])
  }

  ghost predicate AllOrdered(s: State)
  {
    forall k :: 0 <= k < |s.calls| ==> Ordered(s.calls[k])
  }

  lemma {:induction false} RunOrdered(s: State, events: seq<Event>)
    requires AllOrdered(s)
    ensures AllOrdered(Run(s, events))
    decreases |events|
  {
    if events != [] {
      var e := events[0];
      if !e.Begins? && e.call < |s.calls| { StepOrdered(s.calls[e.call], e); }
      assert AllOrdered(Apply(s, e));
      RunOrdered(Apply(s, e), events[1..]);
    }
  }

  lemma {:induction false} OrderedMeans(c: Call)
    requires Ordered(c)
    ensures Framed in c.trail ==> FramesLast(c.trail)
    ensures c.stage.Done? && Opened in c.trail ==> Destroyed in c.trail
    ensures c.stage.Closing? || c.stage.Running? ==> !c.released
    ensures Exited in c.trail && !c.stage.Done? ==> Destroyed in c.trail && c.released
  {
    assert EXITED[4] == Destroyed;
    if c.stage.Sending? { assert c.trail[..|COMPLETED|][4] == c.trail[4] == Destroyed; }
  }

  /**
   * In every run, a call that sent a frame claimed, opened, ran, proved the exit, destroyed the
   * streams and completed before it, in that order; a call that opened streams and is over has
   * destroyed them; a call that proved the exit and goes on has done so already.
   */
  lemma {:induction false} EveryCallInOrder(events: seq<Event>)
    ensures var s := Run(START, events);
            forall k :: 0 <= k < |s.calls| ==>
              var c := s.calls[k];
              && (Framed in c.trail ==> FramesLast(c.trail))
              && (c.stage.Done? && Opened in c.trail ==> Destroyed in c.trail)
              && (Exited in c.trail && !c.stage.Done? ==> Destroyed in c.trail && c.released)
  {
    RunOrdered(START, events);
    var s := Run(START, events);
    forall k | 0 <= k < |s.calls|
      ensures var c := s.calls[k];
              && (Framed in c.trail ==> FramesLast(c.trail))
              && (c.stage.Done? && Opened in c.trail ==> Destroyed in c.trail)
              && (Exited in c.trail && !c.stage.Done? ==> Destroyed in c.trail && c.released)
    {
      OrderedMeans(s.calls[k]);
    }
  }

  // ----- one at a time -----

  /** The active ids are those of the calls not yet released, each of one call. */
  ghost predicate Exclusive(s: State)
  {
    && (forall k :: 0 <= k < |s.calls| && !s.calls[k].released ==> s.calls[k].id in s.tables.active)
    && (forall j, k ::
          0 <= j < |s.calls| && 0 <= k < |s.calls| && j != k && !s.calls[j].released && !s.calls[k].released ==>
          s.calls[j].id != s.calls[k].id)
  }

  lemma {:induction false} StepKeepsId(c: Call, e: Event)
    ensures var t := StepCall(c, e);
            t.id == c.id && t.request == c.request && t.entered == c.entered && (c.released ==> t.released)
  {
  }

  lemma {:induction false} ApplyExclusive(s: State, e: Event)
    requires Exclusive(s)
    ensures Exclusive(Apply(s, e))
  {
    if !e.Begins? && e.call < |s.calls| { StepKeepsId(s.calls[e.call], e); }
  }

  lemma {:induction false} OneLivePerId(s: State, events: seq<Event>)
    requires Exclusive(s)
    ensures Exclusive(Run(s, events))
    decreases |events|
  {
    if events != [] {
      ApplyExclusive(s, events[0]);
      OneLivePerId(Apply(s, events[0]), events[1..]);
    }
  }

  /** In every run, two calls that have not released their id hold different ids, whatever the clock does. */
  lemma {:induction false} OneSessionPerId(events: seq<Event>, j: nat, k: nat)
    requires var s := Run(START, events);
             j < k < |s.calls| && !s.calls[j].released && !s.calls[k].released
    ensures var s := Run(START, events); s.calls[j].id != s.calls[k].id && s.calls[j].id in s.tables.active
  {
    OneLivePerId(START, events);
  }

  // ----- when a claim enters again -----

  /** The event admits a call of `id`. */
  predicate Enters(s: State, e: Event, id: Text)
  {
    e.Begins? && e.id == id && EnterDispatch(s.tables, e.id, e.request.expiresAt, e.now).1 == Admitted
  }

  /** None of the events admits a call of `id`. */
  predicate Silent(s: State, events: seq<Event>, id: Text)
    decreases |events|
  {
    events == [] || (!Enters(s, events[0], id) && Silent(Apply(s, events[0]), events[1..], id))
  }

  /** Every beginning call prunes the entries whose expiry its sample has reached, whatever comes of it. */
  predicate Prunes(e: Event, expiry: int) { e.Begins? && expiry <= e.now }

  predicate SomePrunes(events: seq<Event>, expiry: int) { Happens(events, (e: Event) => Prunes(e, expiry)) }

  /** The claim's entry stays until it is pruned. */
  lemma {:induction false} UsedUntilPruned(s: State, events: seq<Event>, id: Text, expiry: int)
    requires Silent(s, events, id) && (id in s.tables.used ==> s.tables.used[id] == expiry)
    ensures var t := Run(s, events);
            && (id in t.tables.used <==> id in s.tables.used && !SomePrunes(events, expiry))
            && (id in t.tables.used ==> t.tables.used[id] == expiry)
    decreases |events|
  {
    if events != [] {
      UsedUntilPruned(Apply(s, events[0]), events[1..], id, expiry);
      HappensFirst(events, (e: Event) => Prunes(e, expiry));
    }
  }

  /**
   * Once a call of a claim has entered, and as long as no other call of its id has, a call of that id
   * is admitted exactly if some call that began since, itself included, sampled at or after the
   * claim's expiry, the id has been released, and fewer than 1024 entries outlive its own sample.
   */
  lemma {:induction false} EntersAgainExactly(s: State, claim: Event, between: seq<Event>, again: Event)
    requires claim.Begins? && Enters(s, claim, claim.id) && Silent(Apply(s, claim), between, claim.id)
    requires again.Begins? && again.id == claim.id
    ensures var t := Run(Apply(s, claim), between);
            Enters(t, again, claim.id) <==>
            && SomePrunes(between + [again], claim.request.expiresAt)
            && claim.id !in t.tables.active
            && |Fresh(t.tables.used, again.now)| < MAX_TRACKED
  {
    UsedUntilPruned(Apply(s, claim), between, claim.id, claim.request.expiresAt);
    HappensLast(between, again, (e: Event) => Prunes(e, claim.request.expiresAt));
  }

  lemma {:induction false} InactiveWhileSilent(s: State, events: seq<Event>, id: Text)
    requires Silent(s, events, id) && id !in s.tables.active
    ensures id !in Run(s, events).tables.active
    decreases |events|
  {
    if events != [] { InactiveWhileSilent(Apply(s, events[0]), events[1..], id); }
  }

  /** An id that has not entered yet enters exactly if fewer than 1024 entries outlive the sample. */
  lemma {:induction false} FirstEntersExactly(events: seq<Event>, first: Event)
    requires first.Begins? && Silent(START, events, first.id)
    ensures Enters(Run(START, events), first, first.id) <==>
            |Fresh(Run(START, events).tables.used, first.now)| < MAX_TRACKED
  {
    UsedUntilPruned(START, events, first.id, 0);
    InactiveWhileSilent(START, events, first.id);
  }

  // ----- once -----

  function Latest(last: int, e: Event): int
  {
    match e
    case Begins(_, _, now) => now
    case OpenSettles(_, _, _, _, later) => later
    case RunSettles(_, _, now) => now
    case CloseSettles(_, _, _, evidence) => evidence
    case _ => last
  }

  predicate Follows(last: int, e: Event)
  {
    && last <= Latest(last, e)
    && (e.OpenSettles? ==> last <= e.now <= e.later)
    && (e.CloseSettles? ==> last <= e.observed <= e.evidence)
  }

  predicate Steady(last: int, events: seq<Event>)
    decreases |events|
  {
    events == [] || (Follows(last, events[0]) && Steady(Latest(last, events[0]), events[1..]))
  }

  function End(last: int, events: seq<Event>): int
    decreases |events|
  {
    if events == [] then last else End(Latest(last, events[0]), events[1..])
  }

  predicate SameClaim(a: Call, b: Call) { a.id == b.id && a.request.expiresAt == b.request.expiresAt }

  /** A second call of a claim entered no earlier than its expiry, and only one of them ran. */
  ghost predicate RunsOnce(calls: seq<Call>, last: int)
  {
    forall j, k :: 0 <= j < k < |calls| && SameClaim(calls[j], calls[k]) ==>
      calls[k].request.expiresAt <= calls[k].entered <= last && !(Ran in calls[j].trail && Ran in calls[k].trail)
  }

  ghost predicate Kept(s: State, last: int)
  {
    && RunsOnce(s.calls, last)
    && forall k :: 0 <= k < |s.calls| ==> Remembered(s.tables, s.calls[k].id, s.calls[k].request.expiresAt, last)
  }

  lemma {:induction false} BeginKeeps(s: State, id: Text, request: Request, now: int, last: int)
    requires Kept(s, last) && last <= now
    ensures Kept(Apply(s, Begins(id, request, now)), now)
  {
    forall k | 0 <= k < |s.calls|
      ensures var (next, verdict) := EnterDispatch(s.tables, id, request.expiresAt, now);
              && Remembered(next, s.calls[k].id, s.calls[k].request.expiresAt, now)
              && (verdict == Admitted ==> Remembered(next, id, request.expiresAt, now))
              && (verdict == Admitted && id == s.calls[k].id && request.expiresAt == s.calls[k].request.expiresAt ==>
                    request.expiresAt <= now)
    {
      DispatchRemembers(s.tables, id, request.expiresAt, now, s.calls[k].id, s.calls[k].request.expiresAt, last);
    }
  }

  /** A step makes a call run only while its claim has not expired. */
  lemma {:induction false} RanInTime(c: Call, e: Event, last: int)
    requires Follows(last, e) && Ran in StepCall(c, e).trail && Ran !in c.trail
    ensures last < c.request.expiresAt
  {
  }

  lemma {:induction false} StepRunsOnce(calls: seq<Call>, i: nat, e: Event, last: int)
    requires i < |calls| && RunsOnce(calls, last) && Follows(last, e)
    ensures RunsOnce(calls[i := StepCall(calls[i], e)], Latest(last, e))
  {
    var c := calls[i];
    StepKeepsId(c, e);
    if Ran in StepCall(c, e).trail && Ran !in c.trail { RanInTime(c, e, last); }
    var after := calls[i := StepCall(c, e)];
    forall j, k | 0 <= j < k < |after| && SameClaim(after[j], after[k])
      ensures after[k].request.expiresAt <= after[k].entered <= Latest(last, e) &&
              !(Ran in after[j].trail && Ran in after[k].trail)
    {
      assert SameClaim(calls[j], calls[k]);
    }
  }

  lemma {:induction false} StepKeeps(s: State, e: Event, last: int)
    requires Kept(s, last) && Follows(last, e) && !e.Begins? && e.call < |s.calls|
    ensures Kept(Apply(s, e), Latest(last, e))
  {
    StepKeepsId(s.calls[e.call], e);
    StepRunsOnce(s.calls, e.call, e, last);
  }

  lemma {:induction false} RunKeeps(s: State, events: seq<Event>, last: int)
    requires Kept(s, last) && Steady(last, events)
    ensures RunsOnce(Run(s, events).calls, End(last, events))
    decreases |events|
  {
    if events != [] {
      var e := events[0];
      if e.Begins? {
        BeginKeeps(s, e.id, e.request, e.now, last);
      } else if e.call < |s.calls| {
        StepKeeps(s, e, last);
      } else {
        assert Kept(s, Latest(last, e));
      }
      RunKeeps(Apply(s, e), events[1..], Latest(last, e));
    }
  }

  /**
   * On a clock that never goes back, at most one call of a claim, as a supervision, session,
   * dispatch and expiry, passes the run's authority check; another call of the same claim can enter
   * only from the expiry on.
   */
  lemma {:induction false} EveryClaimRunsOnce(events: seq<Event>, started: int)
    requires Steady(started, events)
    ensures var calls := Run(START, events).calls;
            forall j, k :: 0 <= j < k < |calls| && SameClaim(calls[j], calls[k]) ==>
              calls[k].request.expiresAt <= calls[k].entered && !(Ran in calls[j].trail && Ran in calls[k].trail)
  {
    RunKeeps(START, events, started);
  }

  lemma {:induction false} RunOne(s: State, events: seq<Event>, i: nat)
    requires i < |events|
    ensures Run(s, events[i..]) == Run(Apply(s, events[i]), events[i + 1..])
  {
    assert events[i..][1..] == events[i + 1..];
  }

  /** A claim that entered at 5 and was given up, and a call that enters at its expiry. */
  function EnterTwice(id: Text, request: Request): (events: seq<Event>)
  {
    [Begins(id, request, 5), ClaimSettles(0, true), OpenSettles(0, Denied, true, 5, 5), Begins(id, request, 10),
      ClaimSettles(1, true)]
  }

  /** Where that leaves the coordinator. */
  function Entered(id: Text, request: Request): (s: State)
  {
    State(Tables({id}, map[id := 10]),
          [Call(id, request, 5, Done, [Claimed], true), Call(id, request, 10, Opening, [Claimed], false)])
  }

  lemma {:induction false} TwiceEntered(id: Text, request: Request)
    requires request.expiresAt == 10
    ensures Run(START, EnterTwice(id, request)) == Entered(id, request)
  {
    var events := EnterTwice(id, request);
    var s1 := Apply(START, events[0]);
    var s2 := Apply(s1, events[1]);
    var s3 := Apply(s2, events[2]);
    var s4 := Apply(s3, events[3]);
    var s5 := Apply(s4, events[4]);
    assert s1.tables == Tables({id}, map[id := 10]) && s1.calls == [Call(id, request, 5, Claiming, [], false)];
    assert s2.calls[0] == Call(id, request, 5, Opening, [Claimed], false);
    assert s3.calls[0] == Call(id, request, 5, Done, [Claimed], true);
    assert s3.calls == [Call(id, request, 5, Done, [Claimed], true)] && s3.tables == Tables({}, map[id := 10]);
    assert Fresh(s3.tables.used, 10) == map[];
    assert s4.tables == Tables({id}, map[id := 10]) && |s4.calls| == 2 &&
      s4.calls[1] == Call(id, request, 10, Claiming, [], false);
    assert s5.calls[1] == Call(id, request, 10, Opening, [Claimed], false);
    assert s5.calls == Entered(id, request).calls && s5.tables == Entered(id, request).tables;
    RunFive(START, events);
  }

  lemma {:induction false} RunLast(s: State, events: seq<Event>, e: Event)
    ensures Run(s, events + [e]) == Apply(Run(s, events), e)
    decreases |events|
  {
    if events == [] {
      assert [e][1..] == [];
    } else {
      RunLast(Apply(s, events[0]), events[1..], e);
      assert (events + [e])[1..] == events[1..] + [e];
    }
  }

  /**
   * Claiming and opening are not once-only: a call that was authenticated in time but enters at the
   * expiry finds its entry pruned, claims and opens again. Only the run's own check stops it.
   */
  lemma {:induction false} LateCallOpensAgain(id: Text, request: Request)
    requires request.expiresAt == 10
    ensures var calls := Run(START, EnterTwice(id, request) + [OpenSettles(1, Usable, true, 10, 10)]).calls;
            && |calls| == 2 && SameClaim(calls[0], calls[1])
            && calls[0].trail == [Claimed] && calls[1].trail == [Claimed, Opened, Destroyed]
  {
    TwiceEntered(id, request);
    RunLast(START, EnterTwice(id, request), OpenSettles(1, Usable, true, 10, 10));
  }

  /** The close result that proves this session's exit at its beginning. */
  function ExitOf(request: Request): (r: CloseResult)
  {
    CloseResult(request.binding, request.dispatchId, request.dispatchHash, request.sessionId, true, Some(0), None,
      request.issuedAt)
  }

  /** A run at 5 that fails and is closed, a call that enters at the expiry 10, and its open back at 9. */
  function RunTwice(id: Text, request: Request): (events: seq<Event>)
  {
    [Begins(id, request, 5), ClaimSettles(0, true), OpenSettles(0, Usable, true, 5, 5), RunSettles(0, false, 5),
     CloseSettles(0, Some(ExitOf(request)), 5, 5), Begins(id, request, 10), ClaimSettles(1, true)]
  }

  lemma {:induction false} FirstRuns(id: Text, request: Request)
    requires request.expiresAt == 10 && request.issuedAt == 0
    ensures var e := RunTwice(id, request);
            Apply(Apply(Apply(START, e[0]), e[1]), e[2]) ==
            State(Tables({id}, map[id := 10]), [Call(id, request, 5, Running, RAN, false)])
  {
    var e := RunTwice(id, request);
    var s1 := Apply(START, e[0]);
    assert s1.tables == Tables({id}, map[id := 10]) && s1.calls == [Call(id, request, 5, Claiming, [], false)];
    var s2 := Apply(s1, e[1]);
    assert s2.tables == s1.tables && s2.calls[0] == Call(id, request, 5, Opening, [Claimed], false);
    var s3 := Apply(s2, e[2]);
    assert [Claimed] + [Opened, Ran] == RAN;
    assert s3.tables == s1.tables && s3.calls == [Call(id, request, 5, Running, RAN, false)];
  }

  lemma {:induction false} FirstEnds(id: Text, request: Request)
    requires request.expiresAt == 10 && request.issuedAt == 0
    ensures var s := State(Tables({id}, map[id := 10]), [Call(id, request, 5, Running, RAN, false)]);
            Apply(Apply(s, RunSettles(0, false, 5)), CloseSettles(0, Some(ExitOf(request)), 5, 5)) ==
            State(Tables({}, map[id := 10]), [Call(id, request, 5, Done, EXITED, true)])
  {
    var s := State(Tables({id}, map[id := 10]), [Call(id, request, 5, Running, RAN, false)]);
    var t := Apply(Apply(s, RunSettles(0, false, 5)), CloseSettles(0, Some(ExitOf(request)), 5, 5));
    assert RAN + [Exited, Destroyed] == EXITED;
    assert t.calls[0] == Call(id, request, 5, Done, EXITED, true);
    assert t.tables == Tables({}, map[id := 10]) && t.calls == [t.calls[0]];
  }

  lemma {:induction false} SecondEnters(id: Text, request: Request)
    requires request.expiresAt == 10
    ensures var s := State(Tables({}, map[id := 10]), [Call(id, request, 5, Done, EXITED, true)]);
            Apply(Apply(s, Begins(id, request, 10)), ClaimSettles(1, true)) ==
            State(Tables({id}, map[id := 10]),
              [Call(id, request, 5, Done, EXITED, true), Call(id, request, 10, Opening, [Claimed], false)])
  {
    assert Fresh(map[id := 10], 10) == map[];
    var s := State(Tables({}, map[id := 10]), [Call(id, request, 5, Done, EXITED, true)]);
    var t := Apply(s, Begins(id, request, 10));
    assert t.tables == Tables({id}, map[id := 10]) && |t.calls| == 2 &&
      t.calls[1] == Call(id, request, 10, Claiming, [], false);
    var u := Apply(t, ClaimSettles(1, true));
    assert u.calls[1] == Call(id, request, 10, Opening, [Claimed], false);
    assert u.calls == [s.calls[0], u.calls[1]] && u.tables == t.tables;
  }

  /** On a clock that goes back between entering and opening, one claim runs twice. */
  lemma {:induction false} BackwardClockRunsTwice(id: Text, request: Request)
    requires request.expiresAt == 10 && request.issuedAt == 0
    ensures var calls := Run(START, RunTwice(id, request) + [OpenSettles(1, Usable, true, 9, 9)]).calls;
            |calls| == 2 && SameClaim(calls[0], calls[1]) && Ran in calls[0].trail && calls[1].trail == RAN
  {
    var e := RunTwice(id, request);
    FirstRuns(id, request);
    FirstEnds(id, request);
    SecondEnters(id, request);
    RunLast(START, e, OpenSettles(1, Usable, true, 9, 9));
    assert EXITED[2] == Ran;
    RunSeven(START, e);
  }

  lemma {:induction false} RunSeven(s: State, e: seq<Event>)
    requires |e| == 7
    ensures Run(s, e) == Apply(Apply(Apply(Apply(Apply(Apply(Apply(s, e[0]), e[1]), e[2]), e[3]), e[4]), e[5]), e[6])
  {
    assert e == e[..6] + [e[6]];
    RunLast(s, e[..6], e[6]);
    assert e[..6] == e[..5] + [e[5]];
    RunLast(s, e[..5], e[5]);
    RunFive(s, e[..5]);
  }

  lemma {:induction false} RunFive(s: State, e: seq<Event>)
    requires |e| == 5
    ensures Run(s, e) == Apply(Apply(Apply(Apply(Apply(s, e[0]), e[1]), e[2]), e[3]), e[4])
  {
    RunOne(s, e, 0);
    RunOne(Apply(s, e[0]), e, 1);
    RunOne(Apply(Apply(s, e[0]), e[1]), e, 2);
    RunOne(Apply(Apply(Apply(s, e[0]), e[1]), e[2]), e, 3);
    RunOne(Apply(Apply(Apply(Apply(s, e[0]), e[1]), e[2]), e[3]), e, 4);
    assert e[0..] == e && e[5..] == [];
  }
}
