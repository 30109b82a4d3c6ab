/** When a validation run returns, in terms of the messages that arrive and the samples they arrive at. */
module RunOutcomes {
  import opened Outcomes
  import opened Texts
  import opened AppServerMessages
  import opened ProtocolRunner
  import Session = AppServerSession

  // ----- the end of a run -----

  /** The usage of these messages, if the wire can hash the lists. */
  predicate UsageIs<M>(wire: Wire<M>, threadId: Option<Text>, turnId: Option<Text>, seen: seq<M>, u: Usage)
  {
    var progress := Hashes(wire, threadId, turnId, seen, false);
    var tokens := Hashes(wire, threadId, turnId, seen, true);
    && wire.progressHash(progress) == Some(u.progressHash) && u.progressCount == |progress|
    && wire.tokenHash(tokens) == Some(u.tokenHash) && u.tokenCount == |tokens|
    && (u.observed <==> |tokens| > 0)
  }

  /** The terminal message of this thread and turn, with this status, and the evidence it gives. */
  predicate EndsTurn<M>(
    wire: Wire<M>, m: M, threadId: Option<Text>, turnId: Option<Text>, status: Status, seen: seq<M>,
    interrupt: Option<(int, Text)>, e: Evidence)
  {
    && wire.completes(m)
    && wire.reader.terminal(m, threadId, turnId).Some?
    && var t := wire.reader.terminal(m, threadId, turnId).value;
    && t.status == status && t.bytes <= 65_536
    && e.threadId == threadId && e.turnId == turnId && e.status == status && e.messageHash == t.hash
    && e.interrupt == interrupt && UsageIs(wire, threadId, turnId, seen, e.usage)
  }

  /** The evidence a message would end the loop with. */
  predicate EndsAs<M>(wire: Wire<M>, r: Runner<M>, m: M, e: Evidence)
  {
    if r.requested.None?
    then wire.finalText(m) == Some(wire.token) &&
         EndsTurn(wire, m, r.session.threadId, r.session.turnId, Completed, r.seen, None, e)
    else !wire.hasId(m) && r.evidence.Some? &&
         EndsTurn(wire, m, r.session.threadId, r.session.turnId, Interrupted, r.seen, r.evidence, e)
  }

  lemma {:induction false} TerminalExactly<M>(wire: Wire<M>, s: Session.State, m: M)
    requires s.phase == Session.TurnActive || s.phase == Session.InterruptAcknowledged
    requires s.acceptedEvents == 0 && s.acceptedBytes == 0
    ensures match wire.reader.terminal(m, s.threadId, s.turnId)
            case None => Session.Step(wire.reader, s, Session.AcceptTurnCompleted(m)).1 == Session.Thrown
            case Some(t) =>
              if t.bytes > 65_536 then Session.Step(wire.reader, s, Session.AcceptTurnCompleted(m)).1 == Session.Thrown
              else var (next, answer) := Session.Step(wire.reader, s, Session.AcceptTurnCompleted(m));
                   answer == Session.Terminal(t.status, t.hash) && next.threadId == s.threadId &&
                     next.turnId == s.turnId
  {
  }

  lemma {:induction false} UsageExactly<M>(
    wire: Wire<M>, threadId: Option<Text>, turnId: Option<Text>, seen: seq<M>, progress: seq<Text>, tokens: seq<Text>,
    u: Usage)
    requires progress == Hashes(wire, threadId, turnId, seen, false) &&
             tokens == Hashes(wire, threadId, turnId, seen, true)
    ensures UsageOf(wire, progress, tokens) == Some(u) <==> UsageIs(wire, threadId, turnId, seen, u)
  {
  }

  lemma {:induction false} QuietTerminates<M>(wire: Wire<M>, deadline: int, r: Runner<M>, m: M, e: Evidence)
    requires Looping(wire, deadline, r) && r.stage.Reading? && wire.completes(m) && r.requested.None?
    ensures Terminate(wire, r, m).stage.Over?
    ensures Terminate(wire, r, m).stage == Over(Returned(e)) <==> EndsAs(wire, r, m, e)
  {
    TerminalExactly(wire, r.session, m);
    UsageExactly(wire, r.session.threadId, r.session.turnId, r.seen, r.progress, r.tokens, e.usage);
  }

  lemma {:induction false} InterruptTerminates<M>(wire: Wire<M>, deadline: int, r: Runner<M>, m: M, e: Evidence)
    requires Looping(wire, deadline, r) && r.stage.Reading? && wire.completes(m) && !wire.hasId(m) && r.requested.Some?
    ensures Terminate(wire, r, m).stage.Over?
    ensures Terminate(wire, r, m).stage == Over(Returned(e)) <==> EndsAs(wire, r, m, e)
    ensures Terminate(wire, r, m).stage.outcome.Returned? ==> Terminate(wire, r, m).journal == r.journal + [Ended(m)]
  {
    if r.evidence.Some? { TerminalExactly(wire, r.session, m); }
    UsageExactly(wire, r.session.threadId, r.session.turnId, r.seen, r.progress, r.tokens, e.usage);
  }

  // ----- progress -----

  ghost predicate Arrivals<M>(es: seq<Event<M>>) { forall i :: 0 <= i < |es| ==> es[i].Arrives? }

  function Messages<M>(es: seq<Event<M>>): (ms: seq<M>)
    requires forall i :: 0 <= i < |es| ==> es[i].Arrives?
  {
    seq(|es|, i requires 0 <= i < |es| => es[i].message)
  }

  /** Arrivals that neither end the turn nor, once an interrupt is requested, answer anything. */
  ghost predicate Middle<M>(wire: Wire<M>, requested: bool, es: seq<Event<M>>)
  {
    Arrivals(es) && forall i :: 0 <= i < |es| ==>
      !wire.completes(es[i].message) &&
      (requested ==> !wire.hasId(es[i].message))
  }

  /** Each is admitted as progress of this thread and turn, with time left after it. */
  ghost predicate Admitted<M>(
    wire: Wire<M>, threadId: Option<Text>, turnId: Option<Text>, deadline: int, es: seq<Event<M>>)
    requires Arrivals(es)
  {
    forall i :: 0 <= i < |es| ==> wire.progress(es[i].message, threadId, turnId).Some? && es[i].now < deadline
  }

  /** The runner after these messages. */
  function After<M>(wire: Wire<M>, r: Runner<M>, ms: seq<M>): Runner<M>
  {
    var seen := r.seen + ms;
    r.(progress := Hashes(wire, r.session.threadId, r.session.turnId, seen, false),
       tokens := Hashes(wire, r.session.threadId, r.session.turnId, seen, true),
       count := r.count + |ms|, seen := seen)
  }

  lemma {:induction false} OverStays<M>(wire: Wire<M>, deadline: int, r: Runner<M>, es: seq<Event<M>>)
    requires r.stage.Over?
    ensures Run(wire, deadline, r, es) == r
    decreases |es|
  {
    if es != [] { OverStays(wire, deadline, r, es[1..]); }
  }

  lemma {:induction false} OneMoreProgress<M>(wire: Wire<M>, deadline: int, r: Runner<M>, m: M, entry: int, now: int)
    requires Looping(wire, deadline, r) && r.stage.Reading? && !wire.completes(m)
    requires r.requested.Some? ==> !wire.hasId(m)
    ensures var t := Next(wire, deadline, r, Arrives(m, entry, now));
            if wire.progress(m, r.session.threadId, r.session.turnId).Some? && now < deadline && r.count < 127
            then t == After(wire, r, [m]) && Looping(wire, deadline, t)
            else t.stage == Over(Denied)
  {
    assert Next(wire, deadline, r, Arrives(m, entry, now)) == Advance(wire, deadline, r, m, now);
    match wire.progress(m, r.session.threadId, r.session.turnId) {
      case None =>
      case Some(p) => AdvanceLoops(wire, deadline, r, m, p);
    }
  }

  lemma {:induction false} AfterJoins<M>(wire: Wire<M>, r: Runner<M>, m: M, ms: seq<M>)
    ensures After(wire, After(wire, r, [m]), ms) == After(wire, r, [m] + ms)
  {
    assert r.seen + [m] + ms == r.seen + ([m] + ms);
  }

  lemma {:induction false} AfterNothing<M>(wire: Wire<M>, deadline: int, r: Runner<M>)
    requires Looping(wire, deadline, r)
    ensures After(wire, r, []) == r
  {
    assert r.seen + [] == r.seen;
  }

  lemma {:induction false} MessagesFirst<M>(es: seq<Event<M>>)
    requires es != [] && Arrivals(es)
    ensures Arrivals(es[1..]) && Messages(es) == [es[0].message] + Messages(es[1..])
  {
  }

  /** From within the loop: all of them are kept, in order, or the run is denied. */
  lemma {:induction false} ProgressExactly<M>(wire: Wire<M>, deadline: int, r: Runner<M>, es: seq<Event<M>>)
    requires Looping(wire, deadline, r) && r.stage.Reading? && Middle(wire, r.requested.Some?, es)
    ensures var t := Run(wire, deadline, r, es);
            if Admitted(wire, r.session.threadId, r.session.turnId, deadline, es) && r.count + |es| <= 127
            then t == After(wire, r, Messages(es)) && Looping(wire, deadline, t)
            else t.stage == Over(Denied)
    decreases |es|
  {
    if es == [] {
      AfterNothing(wire, deadline, r);
      assert Messages(es) == [];
    } else {
      var m := es[0].message;
      var t := Next(wire, deadline, r, es[0]);
      assert es[0] == Arrives(m, es[0].entry, es[0].now);
      OneMoreProgress(wire, deadline, r, m, es[0].entry, es[0].now);
      SplitAdmitted(wire, r.session.threadId, r.session.turnId, deadline, es);
      if t.stage.Over? {
        OverStays(wire, deadline, t, es[1..]);
      } else {
        ProgressExactly(wire, deadline, t, es[1..]);
        MessagesFirst(es);
        AfterJoins(wire, r, m, Messages(es[1..]));
      }
    }
  }

  lemma {:induction false} SplitAdmitted<M>(
    wire: Wire<M>, threadId: Option<Text>, turnId: Option<Text>, deadline: int, es: seq<Event<M>>)
    requires Arrivals(es) && es != []
    ensures Admitted(wire, threadId, turnId, deadline, es) <==>
            && wire.progress(es[0].message, threadId, turnId).Some? && es[0].now < deadline
            && Arrivals(es[1..]) && Admitted(wire, threadId, turnId, deadline, es[1..])
  {
    assert forall i :: 1 <= i < |es| ==> es[i] == es[1..][i - 1];
  }

  // ----- the handshake -----

  /** Three replies, to requests 1 to 3: an agent, a restricted thread, and a turn, with time left after it. */
  ghost predicate HandsShake<M>(wire: Wire<M>, deadline: int, es: seq<Event<M>>, threadId: Text, turnId: Text)
  {
    && |es| == 3 && Arrivals(es)
    && wire.id(es[0].message) == Some(1) && wire.id(es[1].message) == Some(2) && wire.id(es[2].message) == Some(3)
    && wire.reader.initialize(es[0].message, Some(1))
    && wire.reader.thread(es[1].message, Some(2)) == Some(ThreadReading(true, Some(threadId)))
    && wire.reader.task(wire.challenge)
    && wire.reader.turn(es[2].message, Some(3)) == Some(turnId)
    && es[2].now < deadline
  }

  lemma {:induction false} InitializeExactly<M>(wire: Wire<M>, deadline: int, e: Event<M>)
    requires e.Arrives?
    ensures var t := Next(wire, deadline, Start(wire), e);
            if wire.id(e.message) == Some(1) && wire.reader.initialize(e.message, Some(1))
            then t == Start(wire).(stage := Threading,
                                   session := Session.NEW_SESSION.(phase := Session.ThreadPending, nextId := 3,
                                     pendingId := Some(2)))
            else t.stage == Over(Denied)
  {
  }

  function ShakingSession(
    phase: Session.Phase, pending: Option<int>, nextId: int, threadId: Option<Text>,
    turnId: Option<Text>): Session.State
  {
    Session.State(phase, nextId, pending, threadId, turnId, None, threadId.Some?, 0, 0)
  }

  lemma {:induction false} ThreadExactly<M>(wire: Wire<M>, deadline: int, r: Runner<M>, e: Event<M>)
    requires r.stage.Threading? && r.session == ShakingSession(Session.ThreadPending, Some(2), 3, None, None) &&
             e.Arrives?
    ensures var t := Next(wire, deadline, r, e);
            if wire.id(e.message) == Some(2) && wire.reader.thread(e.message, Some(2)).Some? &&
               wire.reader.thread(e.message, Some(2)).value.restricted &&
                 wire.reader.thread(e.message, Some(2)).value.id.Some? &&
               wire.reader.task(wire.challenge)
            then t == r.(stage := Turning,
                         session := ShakingSession(Session.TurnPending, Some(3), 4,
                           wire.reader.thread(e.message, Some(2)).value.id, None))
            else t.stage == Over(Denied)
  {
  }

  lemma {:induction false} TurnExactly<M>(wire: Wire<M>, deadline: int, r: Runner<M>, e: Event<M>)
    requires r.stage.Turning? && r.session == ShakingSession(Session.TurnPending, Some(3), 4, r.session.threadId, None)
    requires r.session.threadId.Some? && !r.aborted && r.count == 0 && e.Arrives?
    ensures var t := Next(wire, deadline, r, e);
            if wire.id(e.message) == Some(3) && wire.reader.turn(e.message, Some(3)).Some? && e.now < deadline
            then t == r.(stage := Reading, session := ShakingSession(Session.TurnActive, None, 4, r.session.threadId,
                                                                      wire.reader.turn(e.message, Some(3))))
            else t.stage == Over(Denied)
  {
  }

  /** The runner after the handshake. */
  function Shaken<M>(wire: Wire<M>, threadId: Text, turnId: Text): Runner<M>
  {
    Start(wire).(stage := Reading, session := ShakingSession(Session.TurnActive, None, 4, Some(threadId), Some(turnId)))
  }

  lemma {:induction false} ShakenLoops<M>(wire: Wire<M>, deadline: int, threadId: Text, turnId: Text)
    ensures Looping(wire, deadline, Shaken(wire, threadId, turnId))
  {
  }

  lemma {:induction false} HandshakeExactly<M>(wire: Wire<M>, deadline: int, es: seq<Event<M>>)
    requires |es| == 3 && Arrivals(es)
    ensures var t := Run(wire, deadline, Start(wire), es);
            && (t.stage == Over(Denied) || t.stage == Reading)
            && (t.stage == Over(Denied) <==>
               forall threadId, turnId :: !HandsShake(wire, deadline, es, threadId, turnId))
            && (forall threadId, turnId :: HandsShake(wire, deadline, es, threadId, turnId) ==>
               t == Shaken(wire, threadId, turnId))
  {
    var r1 := Next(wire, deadline, Start(wire), es[0]);
    InitializeExactly(wire, deadline, es[0]);
    RunThree(wire, deadline, Start(wire), es);
    if r1.stage == Threading {
      ThreadExactly(wire, deadline, r1, es[1]);
      var r2 := Next(wire, deadline, r1, es[1]);
      if r2.stage == Turning {
        TurnExactly(wire, deadline, r2, es[2]);
        var r3 := Next(wire, deadline, r2, es[2]);
        if r3.stage == Reading {
          assert HandsShake(wire, deadline, es, r3.session.threadId.value, r3.session.turnId.value);
        }
      }
    }
  }

  lemma {:induction false} RunThree<M>(wire: Wire<M>, deadline: int, r: Runner<M>, es: seq<Event<M>>)
    requires |es| == 3
    ensures Run(wire, deadline, r, es) ==
            Next(wire, deadline, Next(wire, deadline, Next(wire, deadline, r, es[0]), es[1]), es[2])
  {
    assert es[0..] == es && es[3..] == [];
    RunOne(wire, deadline, r, es, 0);
    RunOne(wire, deadline, Next(wire, deadline, r, es[0]), es, 1);
    RunOne(wire, deadline, Next(wire, deadline, Next(wire, deadline, r, es[0]), es[1]), es, 2);
  }

  lemma {:induction false} RunJoins<M>(wire: Wire<M>, deadline: int, r: Runner<M>, es: seq<Event<M>>, fs: seq<Event<M>>)
    ensures Run(wire, deadline, r, es + fs) == Run(wire, deadline, Run(wire, deadline, r, es), fs)
    decreases |es|
  {
    if es == [] {
      assert es + fs == fs;
    } else {
      RunJoins(wire, deadline, Next(wire, deadline, r, es[0]), es[1..], fs);
      assert (es + fs)[1..] == es[1..] + fs;
    }
  }

  // ----- completed -----

  /** The j-th of these arrivals returns: progress up to it, and then the end of the turn on the token. */
  ghost predicate ReturnsAt<M>(wire: Wire<M>, deadline: int, r: Runner<M>, es: seq<Event<M>>, j: nat, e: Evidence)
    requires Arrivals(es)
  {
    && j < |es| && Middle(wire, false, es[..j]) &&
       Admitted(wire, r.session.threadId, r.session.turnId, deadline, es[..j])
    && r.count + j <= 127 && wire.finalText(es[j].message) == Some(wire.token)
    && EndsTurn(wire, es[j].message, r.session.threadId, r.session.turnId, Completed, r.seen + Messages(es[..j]), None,
       e)
  }

  /** Where the first message that completes the turn stands. */
  function FirstEnd<M>(wire: Wire<M>, es: seq<Event<M>>): (k: nat)
    requires forall i :: 0 <= i < |es| ==> es[i].Arrives?
    ensures k <= |es| && forall i :: 0 <= i < k ==> !wire.completes(es[i].message)
    ensures k < |es| ==> wire.completes(es[k].message)
    decreases |es|
  {
    if es == [] || wire.completes(es[0].message) then 0
    else
      var k := FirstEnd(wire, es[1..]);
      assert forall i :: 1 <= i < |es| ==> es[i] == es[1..][i - 1];
      1 + k
  }

  lemma {:induction false} LoopReturns<M>(
    wire: Wire<M>, deadline: int, r: Runner<M>, es: seq<Event<M>>, k: nat, e: Evidence)
    requires Looping(wire, deadline, r) && r.stage.Reading? && r.requested.None? && Arrivals(es)
    requires k < |es| && Middle(wire, false, es[..k]) && wire.completes(es[k].message)
    ensures Run(wire, deadline, r, es).stage == Over(Returned(e)) <==> ReturnsAt(wire, deadline, r, es, k, e)
  {
    var t := Run(wire, deadline, r, es[..k]);
    assert es == es[..k] + es[k..] && es[k..][0] == es[k];
    RunJoins(wire, deadline, r, es[..k], es[k..]);
    ProgressExactly(wire, deadline, r, es[..k]);
    if t.stage.Over? {
      OverStays(wire, deadline, t, es[k..]);
    } else {
      QuietTerminates(wire, deadline, t, es[k].message, e);
      assert Next(wire, deadline, t, es[k]) == Terminate(wire, t, es[k].message);
      OverStays(wire, deadline, Next(wire, deadline, t, es[k]), es[k..][1..]);
    }
  }

  lemma {:induction false} OnlyFirstEnd<M>(
    wire: Wire<M>, deadline: int, r: Runner<M>, es: seq<Event<M>>, j: nat, e: Evidence)
    requires Arrivals(es) && ReturnsAt(wire, deadline, r, es, j, e)
    ensures j == FirstEnd(wire, es)
  {
    var k := FirstEnd(wire, es);
    assert wire.completes(es[j].message);
    assert forall i :: 0 <= i < j ==> es[..j][i] == es[i] && !wire.completes(es[..j][i].message);
  }

  lemma {:induction false} LoopExactly<M>(wire: Wire<M>, deadline: int, r: Runner<M>, es: seq<Event<M>>, e: Evidence)
    requires Looping(wire, deadline, r) && r.stage.Reading? && r.requested.None? && Arrivals(es)
    ensures Run(wire, deadline, r, es).stage == Over(Returned(e)) <==>
            exists j: nat :: ReturnsAt(wire, deadline, r, es, j, e)
  {
    var k := FirstEnd(wire, es);
    forall j: nat | ReturnsAt(wire, deadline, r, es, j, e) ensures j == k { OnlyFirstEnd(wire, deadline, r, es, j, e); }
    if k < |es| { LoopReturns(wire, deadline, r, es, k, e); } else { ProgressExactly(wire, deadline, r, es); }
  }

  /** A run whose first n messages are the handshake, progress, and the end of the turn on the token. */
  ghost predicate CompletesIn<M>(
    wire: Wire<M>, deadline: int, events: seq<Event<M>>, n: nat, threadId: Text, turnId: Text, e: Evidence)
    requires Arrivals(events)
  {
    && 4 <= n <= |events| && n - 4 <= 127
    && HandsShake(wire, deadline, events[..3], threadId, turnId)
    && Middle(wire, false, events[3..n - 1]) && Admitted(wire, Some(threadId), Some(turnId), deadline, events[3..n - 1])
    && wire.finalText(events[n - 1].message) == Some(wire.token)
    && EndsTurn(wire, events[n - 1].message, Some(threadId), Some(turnId), Completed, Messages(events[3..n - 1]), None,
       e)
  }

  lemma {:induction false} ShortRuns<M>(wire: Wire<M>, deadline: int, events: seq<Event<M>>)
    requires Arrivals(events) && |events| < 3
    ensures var t := Run(wire, deadline, Start(wire), events); t.stage.Over? ==> t.stage == Over(Denied)
  {
    if |events| > 0 {
      InitializeExactly(wire, deadline, events[0]);
      var r1 := Next(wire, deadline, Start(wire), events[0]);
      if |events| == 2 {
        assert events[0..] == events && events[2..] == [];
        RunOne(wire, deadline, Start(wire), events, 0);
        RunOne(wire, deadline, r1, events, 1);
        if r1.stage == Threading { ThreadExactly(wire, deadline, r1, events[1]); }
      }
    }
  }

  lemma {:induction false} ReturnsMeansCompletes<M>(
    wire: Wire<M>, deadline: int, events: seq<Event<M>>, j: nat, threadId: Text, turnId: Text, e: Evidence)
    requires Arrivals(events) && 3 <= |events| && Arrivals(events[3..]) &&
             HandsShake(wire, deadline, events[..3], threadId, turnId)
    ensures ReturnsAt(wire, deadline, Shaken(wire, threadId, turnId), events[3..], j, e) <==>
            CompletesIn(wire, deadline, events, j + 4, threadId, turnId, e)
  {
    var es := events[3..];
    if j < |es| {
      assert es[..j] == events[3..j + 3] && es[j] == events[j + 3];
      assert [] + Messages(es[..j]) == Messages(events[3..j + 3]);
    }
  }

  /**
   * A run in which no abort fires and the transport does not break returns evidence exactly when,
   * for some thread and turn: three replies make the handshake with time left, at most 127 messages
   * are progress of that thread and turn with time left after each, and then comes a message that
   * completes the turn on the token. The evidence names that thread, turn and message, counts the
   * progress and token messages and hashes their lists.
   */
  lemma {:induction false} CompletedExactly<M>(wire: Wire<M>, deadline: int, events: seq<Event<M>>, e: Evidence)
    requires Arrivals(events)
    ensures Run(wire, deadline, Start(wire), events).stage == Over(Returned(e)) <==>
            exists n: nat, threadId, turnId :: CompletesIn(wire, deadline, events, n, threadId, turnId, e)
  {
    if |events| < 3 {
      ShortRuns(wire, deadline, events);
    } else {
      var t := Run(wire, deadline, Start(wire), events[..3]);
      assert events == events[..3] + events[3..];
      RunJoins(wire, deadline, Start(wire), events[..3], events[3..]);
      HandshakeExactly(wire, deadline, events[..3]);
      if t.stage.Over? {
        OverStays(wire, deadline, t, events[3..]);
      } else {
        var threadId, turnId :| HandsShake(wire, deadline, events[..3], threadId, turnId);
        ShakenLoops(wire, deadline, threadId, turnId);
        LoopExactly(wire, deadline, t, events[3..], e);
        ReturnsThere(wire, deadline, events, threadId, turnId, e);
      }
    }
  }

  lemma {:induction false} ReturnsThere<M>(
    wire: Wire<M>, deadline: int, events: seq<Event<M>>, threadId: Text, turnId: Text, e: Evidence)
    requires Arrivals(events) && 3 <= |events| && Arrivals(events[3..]) &&
             HandsShake(wire, deadline, events[..3], threadId, turnId)
    ensures (exists j: nat :: ReturnsAt(wire, deadline, Shaken(wire, threadId, turnId), events[3..], j, e)) <==>
            (exists n: nat, t, u :: CompletesIn(wire, deadline, events, n, t, u, e))
  {
    if j: nat :| ReturnsAt(wire, deadline, Shaken(wire, threadId, turnId), events[3..], j, e) {
      ReturnsMeansCompletes(wire, deadline, events, j, threadId, turnId, e);
      assert CompletesIn(wire, deadline, events, j + 4, threadId, turnId, e);
    }
    if n: nat, t, u :| CompletesIn(wire, deadline, events, n, t, u, e) {
      assert t == threadId && u == turnId;
      ReturnsMeansCompletes(wire, deadline, events, n - 4, threadId, turnId, e);
    }
  }

  // ----- interrupted -----

  /** The runner once the abort has fired in the loop; `late` says that no time was left. */
  function Aborted<M>(r: Runner<M>, at: int, late: bool): Runner<M>
  {
    r.(aborted := true, requested := Some(4), requestedAt := Some(at),
       session := r.session.(phase := Session.InterruptPending, nextId := 5, pendingId := Some(4)),
       write := if late then NotStarted else InFlight, failing := late,
       journal := if late then [] else [Sent(4)])
  }

  lemma {:induction false} AbortExactly<M>(wire: Wire<M>, deadline: int, r: Runner<M>, at: int)
    requires Looping(wire, deadline, r) && r.stage.Reading? && r.requested.None?
    ensures var t := Next(wire, deadline, r, AbortFires(at));
            t == Aborted(r, at, at >= deadline) && Looping(wire, deadline, t)
  {
    NextKeeps(wire, deadline, r, AbortFires(at));
  }

  /** The write of the request has succeeded, if there was one. */
  function Flush<M>(r: Runner<M>): Runner<M>
  {
    if r.write == InFlight then r.(write := Written, journal := r.journal + [Flushed]) else r
  }

  lemma {:induction false} FlushExactly<M>(wire: Wire<M>, deadline: int, r: Runner<M>, at: int)
    requires Looping(wire, deadline, r) && r.stage.Reading?
    ensures var t := Next(wire, deadline, r, WriteSettles(true, at)); t == Flush(r) && Looping(wire, deadline, t)
  {
    NextKeeps(wire, deadline, r, WriteSettles(true, at));
  }

  /** The reply to the interrupt, kept. */
  function Replied<M>(r: Runner<M>, m: M, hash: Text): Runner<M>
  {
    r.(session := r.session.(phase := Session.InterruptAcknowledged, pendingId := None), evidence := Some((4, hash)),
       journal := r.journal + [Acked(m, hash)], count := r.count + 1)
  }

  lemma {:induction false} ReplyExactly<M>(wire: Wire<M>, deadline: int, r: Runner<M>, m: M, entry: int, now: int)
    requires Looping(wire, deadline, r) && r.stage.Reading? && r.requested.Some? && r.evidence.None? && wire.hasId(m)
    requires r.write == Written || r.write == NotStarted
    ensures var t := Next(wire, deadline, r, Arrives(m, entry, now));
            if wire.id(m) == Some(4) && wire.reader.interrupt(m, Some(4)).Some? && now < deadline && r.count < 127
            then t == Replied(r, m, wire.reader.interrupt(m, Some(4)).value) && Looping(wire, deadline, t)
            else t.stage == Over(Denied)
  {
    AcknowledgedSession(wire.reader, r.session, m);
    NextKeeps(wire, deadline, r, Arrives(m, entry, now));
  }

  /** A reply that comes before its request is flushed waits for that, and is then read as if it came after. */
  lemma {:induction false} ReplyMayComeEarly<M>(
    wire: Wire<M>, deadline: int, r: Runner<M>, m: M, entry: int, arrived: int, settled: int)
    requires Looping(wire, deadline, r) && r.stage.Reading? && r.write == InFlight && r.evidence.None?
    requires wire.hasId(m) && wire.id(m) == Some(4)
    ensures var early := Next(wire, deadline, Next(wire, deadline, r, Arrives(m, entry, arrived)),
            WriteSettles(true, settled));
            var late := Next(wire, deadline, Next(wire, deadline, r, WriteSettles(true, settled)),
              Arrives(m, entry, settled));
            early.stage == late.stage && (!late.stage.Over? ==> early == late)
  {
    FlushExactly(wire, deadline, r, settled);
    ReplyExactly(wire, deadline, Flush(r), m, entry, settled);
    AcknowledgedSession(wire.reader, r.session, m);
  }

  /**
   * An interrupted run: the handshake, progress, the abort, progress, the write settling, progress,
   * the reply, progress, and the end of the turn. Each stretch of progress may be empty.
   */
  datatype Interruption<M> = Interruption(
    shake: seq<Event<M>>, before: seq<Event<M>>, at: int, during: seq<Event<M>>, settledAt: int, until: seq<Event<M>>,
    reply: M, replyEntry: int, replyAt: int, later: seq<Event<M>>, end: M, endEntry: int, endAt: int)

  ghost predicate Shaped<M>(wire: Wire<M>, x: Interruption<M>)
  {
    && |x.shake| == 3 && Arrivals(x.shake)
    && Middle(wire, false, x.before) && Middle(wire, true, x.during) && Middle(wire, true, x.until)
    && Middle(wire, true, x.later)
    && wire.hasId(x.reply) && wire.completes(x.end) && !wire.hasId(x.end)
  }

  // The events from the reply's stretch on, from the settling's, from the abort's.
  function Ending<M>(x: Interruption<M>): seq<Event<M>> { x.later + [Arrives(x.end, x.endEntry, x.endAt)] }
  function Replying<M>(x: Interruption<M>): seq<Event<M>>
  {
    x.until + ([Arrives(x.reply, x.replyEntry, x.replyAt)] + Ending(x))
  }
  function Settling<M>(
    x: Interruption<M>): seq<Event<M>> { x.during + ([WriteSettles(true, x.settledAt)] + Replying(x)) }
  function Aborting<M>(x: Interruption<M>): seq<Event<M>> { x.before + ([AbortFires(x.at)] + Settling(x)) }

  lemma {:induction false} RunFirst<M>(wire: Wire<M>, deadline: int, r: Runner<M>, e: Event<M>, es: seq<Event<M>>)
    ensures Run(wire, deadline, r, [e] + es) == Run(wire, deadline, Next(wire, deadline, r, e), es)
  {
    assert ([e] + es)[1..] == es;
  }

  /** A stretch of progress, and then `rest`. */
  lemma {:induction false} Stretch<M>(
    wire: Wire<M>, deadline: int, r: Runner<M>, es: seq<Event<M>>, rest: seq<Event<M>>)
    requires Looping(wire, deadline, r) && r.stage.Reading? && Middle(wire, r.requested.Some?, es)
    ensures if Admitted(wire, r.session.threadId, r.session.turnId, deadline, es) && r.count + |es| <= 127
            then Looping(wire, deadline, After(wire, r, Messages(es))) &&
                 Run(wire, deadline, r, es + rest) == Run(wire, deadline, After(wire, r, Messages(es)), rest)
            else Run(wire, deadline, r, es + rest).stage == Over(Denied)
  {
    RunJoins(wire, deadline, r, es, rest);
    ProgressExactly(wire, deadline, r, es);
    var t := Run(wire, deadline, r, es);
    if t.stage.Over? { OverStays(wire, deadline, t, rest); }
  }

  ghost predicate EndsWell<M>(
    wire: Wire<M>, deadline: int, x: Interruption<M>, threadId: Option<Text>, turnId: Option<Text>, seen: seq<M>,
    count: nat, interrupt: Option<(int, Text)>, e: Evidence)
    requires Shaped(wire, x)
  {
    && Admitted(wire, threadId, turnId, deadline, x.later) && count + |x.later| <= 127
    && EndsTurn(wire, x.end, threadId, turnId, Interrupted, seen + Messages(x.later), interrupt, e)
  }

  lemma {:induction false} EndingExactly<M>(wire: Wire<M>, deadline: int, r: Runner<M>, x: Interruption<M>, e: Evidence)
    requires Shaped(wire, x) && Looping(wire, deadline, r) && r.stage.Reading? && r.requested.Some? && r.evidence.Some?
    ensures Run(wire, deadline, r, Ending(x)).stage == Over(Returned(e)) <==>
            EndsWell(wire, deadline, x, r.session.threadId, r.session.turnId, r.seen, r.count, r.evidence, e)
  {
    var last := Arrives(x.end, x.endEntry, x.endAt);
    Stretch(wire, deadline, r, x.later, [last]);
    if Admitted(wire, r.session.threadId, r.session.turnId, deadline, x.later) && r.count + |x.later| <= 127 {
      var t := After(wire, r, Messages(x.later));
      InterruptTerminates(wire, deadline, t, x.end, e);
      assert Run(wire, deadline, t, [last]) == Next(wire, deadline, t, last) by { assert [last][1..] == []; }
      assert Next(wire, deadline, t, last) == Terminate(wire, t, x.end);
    }
  }

  ghost predicate RepliesWell<M>(
    wire: Wire<M>, deadline: int, x: Interruption<M>, threadId: Option<Text>, turnId: Option<Text>, seen: seq<M>,
    count: nat, e: Evidence)
    requires Shaped(wire, x)
  {
    && Admitted(wire, threadId, turnId, deadline, x.until) && count + |x.until| < 127
    && wire.id(x.reply) == Some(4) && wire.reader.interrupt(x.reply, Some(4)).Some? && x.replyAt < deadline
    && EndsWell(wire, deadline, x, threadId, turnId, seen + Messages(x.until), count + |x.until| + 1,
         Some((4, wire.reader.interrupt(x.reply, Some(4)).value)), e)
  }

  lemma {:induction false} ReplyingExactly<M>(
    wire: Wire<M>, deadline: int, r: Runner<M>, x: Interruption<M>, e: Evidence)
    requires Shaped(wire, x) && Looping(wire, deadline, r) && r.stage.Reading? && r.requested.Some? && r.evidence.None?
    requires r.write == Written || r.write == NotStarted
    ensures Run(wire, deadline, r, Replying(x)).stage == Over(Returned(e)) <==>
            RepliesWell(wire, deadline, x, r.session.threadId, r.session.turnId, r.seen, r.count, e)
  {
    var reply := Arrives(x.reply, x.replyEntry, x.replyAt);
    Stretch(wire, deadline, r, x.until, [reply] + Ending(x));
    if Admitted(wire, r.session.threadId, r.session.turnId, deadline, x.until) && r.count + |x.until| <= 127 {
      var t := After(wire, r, Messages(x.until));
      RunFirst(wire, deadline, t, reply, Ending(x));
      ReplyExactly(wire, deadline, t, x.reply, x.replyEntry, x.replyAt);
      var u := Next(wire, deadline, t, reply);
      if u.stage.Over? { OverStays(wire, deadline, u, Ending(x)); } else { EndingExactly(wire, deadline, u, x, e); }
    }
  }

  lemma {:induction false} SettlingExactly<M>(
    wire: Wire<M>, deadline: int, r: Runner<M>, x: Interruption<M>, e: Evidence)
    requires Shaped(wire, x) && Looping(wire, deadline, r) && r.stage.Reading? && r.requested.Some? && r.evidence.None?
    requires r.write == InFlight || r.write == NotStarted
    ensures Run(wire, deadline, r, Settling(x)).stage == Over(Returned(e)) <==>
            && Admitted(wire, r.session.threadId, r.session.turnId, deadline, x.during) && r.count + |x.during| <= 127
            && RepliesWell(wire, deadline, x, r.session.threadId, r.session.turnId, r.seen + Messages(x.during),
                 r.count + |x.during|, e)
  {
    var settles := WriteSettles(true, x.settledAt);
    Stretch(wire, deadline, r, x.during, [settles] + Replying(x));
    if Admitted(wire, r.session.threadId, r.session.turnId, deadline, x.during) && r.count + |x.during| <= 127 {
      var t := After(wire, r, Messages(x.during));
      RunFirst(wire, deadline, t, settles, Replying(x));
      FlushExactly(wire, deadline, t, x.settledAt);
      ReplyingExactly(wire, deadline, Flush(t), x, e);
    }
  }

  lemma {:induction false} AbortingExactly<M>(
    wire: Wire<M>, deadline: int, r: Runner<M>, x: Interruption<M>, e: Evidence)
    requires Shaped(wire, x) && Looping(wire, deadline, r) && r.stage.Reading? && r.requested.None?
    ensures Run(wire, deadline, r, Aborting(x)).stage == Over(Returned(e)) <==>
            && Admitted(wire, r.session.threadId, r.session.turnId, deadline, x.before) && r.count + |x.before| <= 127
            && Admitted(wire, r.session.threadId, r.session.turnId, deadline, x.during)
            && r.count + |x.before| + |x.during| <= 127
            && RepliesWell(wire, deadline, x, r.session.threadId, r.session.turnId,
                 r.seen + Messages(x.before) + Messages(x.during), r.count + |x.before| + |x.during|, e)
  {
    var abort := AbortFires(x.at);
    Stretch(wire, deadline, r, x.before, [abort] + Settling(x));
    if Admitted(wire, r.session.threadId, r.session.turnId, deadline, x.before) && r.count + |x.before| <= 127 {
      var t := After(wire, r, Messages(x.before));
      RunFirst(wire, deadline, t, abort, Settling(x));
      AbortExactly(wire, deadline, t, x.at);
      SettlingExactly(wire, deadline, Aborted(t, x.at, x.at >= deadline), x, e);
    }
  }

  /** Everything the run needs to return this evidence. */
  ghost predicate InterruptsAs<M>(
    wire: Wire<M>, deadline: int, x: Interruption<M>, threadId: Text, turnId: Text, e: Evidence)
    requires Shaped(wire, x)
  {
    && HandsShake(wire, deadline, x.shake, threadId, turnId)
    && Admitted(wire, Some(threadId), Some(turnId), deadline, x.before)
    && Admitted(wire, Some(threadId), Some(turnId), deadline, x.during)
    && Admitted(wire, Some(threadId), Some(turnId), deadline, x.until)
    && Admitted(wire, Some(threadId), Some(turnId), deadline, x.later)
    && |x.before| + |x.during| + |x.until| + 1 + |x.later| <= 127
    && wire.id(x.reply) == Some(4) && wire.reader.interrupt(x.reply, Some(4)).Some? && x.replyAt < deadline
    && EndsTurn(wire, x.end, Some(threadId), Some(turnId), Interrupted,
         Messages(x.before) + Messages(x.during) + Messages(x.until) + Messages(x.later),
         Some((4, wire.reader.interrupt(x.reply, Some(4)).value)), e)
  }

  /**
   * Such a run returns evidence exactly when the handshake is accepted, all progress is admitted in
   * time and with the reply makes at most 127 messages, the reply to request 4 is accepted in time,
   * and the end of the turn says interrupted. What became of the request is in EveryRunIsSound.
   */
  lemma {:induction false} InterruptedExactly<M>(wire: Wire<M>, deadline: int, x: Interruption<M>, e: Evidence)
    requires Shaped(wire, x)
    ensures Run(wire, deadline, Start(wire), x.shake + Aborting(x)).stage == Over(Returned(e)) <==>
            exists threadId, turnId :: InterruptsAs(wire, deadline, x, threadId, turnId, e)
  {
    RunJoins(wire, deadline, Start(wire), x.shake, Aborting(x));
    HandshakeExactly(wire, deadline, x.shake);
    var t := Run(wire, deadline, Start(wire), x.shake);
    if t.stage.Over? {
      OverStays(wire, deadline, t, Aborting(x));
    } else {
      var threadId, turnId :| HandsShake(wire, deadline, x.shake, threadId, turnId);
      ShakenLoops(wire, deadline, threadId, turnId);
      AbortingExactly(wire, deadline, t, x, e);
      var before := Messages(x.before);
      assert t.seen + before == before;
      forall t, u | InterruptsAs(wire, deadline, x, t, u, e) ensures t == threadId && u == turnId {
      }
      assert Run(wire, deadline, Start(wire), x.shake + Aborting(x)).stage == Over(Returned(e)) <==>
             InterruptsAs(wire, deadline, x, threadId, turnId, e);
    }
  }
}
