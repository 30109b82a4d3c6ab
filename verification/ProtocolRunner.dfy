/**
 * One validation run over an open app-server transport: the handshake, then a loop that reads until
 * the terminal message while an abort callback may send an interrupt at any await. A step is what
 * runs between two awaits; an event is what ends an await.
 */
module ProtocolRunner {
  import opened Outcomes
  import opened Texts
  import opened AppServerMessages
  import opened AppServerSession

  const MAX_PROGRESS_EVENTS: nat := 128

  /** An admitted progress event: its hash, and whether it reports token usage. */
  datatype Progress = Progress(hash: Text, tokenUsage: bool)

  /** How the runner reads messages, what it asks for and the token it expects. */
  datatype Wire<!M> = Wire(
    reader: Reader<M>,
    hasId: M -> bool,
    id: M -> Option<int>,
    completes: M -> bool,
    finalText: M -> Option<Text>,
    progress: (M, Option<Text>, Option<Text>) -> Option<Progress>,
    progressHash: seq<Text> -> Option<Text>,
    tokenHash: seq<Text> -> Option<Text>,
    challenge: Text,
    token: Text)

  datatype Usage = Usage(progressCount: nat, progressHash: Text, tokenCount: nat, tokenHash: Text, observed: bool)

  datatype Evidence = Evidence(
    threadId: Option<Text>, turnId: Option<Text>, status: Status, messageHash: Text,
    interrupt: Option<(int, Text)>, usage: Usage)

  datatype Outcome = Returned(evidence: Evidence) | Denied

  datatype Stage<M> =
    | Initializing | Threading | Turning
    | Reading
    | AwaitingWrite(reply: M)
    | Over(outcome: Outcome)

  /** The write of the interrupt request; `requestedAt` is the clock sample the request was made at. */
  datatype Write = NotStarted | InFlight | Written | Broken

  /** What the transport and the session have seen of the interrupt and the end. */
  datatype Entry<M> = Sent(id: int) | Flushed | Acked(reply: M, hash: Text) | Ended(message: M)

  datatype Runner<M> = Runner(
    stage: Stage<M>,
    session: State,
    aborted: bool,
    requested: Option<int>,
    requestedAt: Option<int>,
    write: Write,
    failing: bool,
    evidence: Option<(int, Text)>,
    progress: seq<Text>,
    tokens: seq<Text>,
    count: nat,
    journal: seq<Entry<M>>,
    seen: seq<M>)

  /** What can end an await, with the clock samples the following step takes. */
  datatype Event<M> =
    | Arrives(message: M, entry: int, now: int)
    | AbortFires(now: int)
    | WriteSettles(ok: bool, now: int)
    | FailureSurfaces
    | Breaks

  // ----- the steps -----

  function Start<M>(wire: Wire<M>): Runner<M>
  {
    Runner(Initializing, Step(wire.reader, NEW_SESSION, Initialize).0, false, None, None, NotStarted, false, None, [],
      [], 0, [], [])
  }

  function Deny<M>(r: Runner<M>): Runner<M> { r.(stage := Over(Denied)) }

  /** The top of the loop: the message limit, then the time left. */
  function Head<M>(deadline: int, r: Runner<M>, now: int): Runner<M>
  {
    if r.count == MAX_PROGRESS_EVENTS || now >= deadline then Deny(r) else r.(stage := Reading)
  }

  /** The abort callback: the id is set before the time left is looked at. */
  function RequestInterrupt<M>(wire: Wire<M>, deadline: int, r: Runner<M>, now: int): Runner<M>
  {
    if r.requested.Some? then r
    else
      match Step(wire.reader, r.session, Interrupt)
      case (s, Request(id)) =>
        if now < deadline
        then r.(session := s, requested := Some(id), requestedAt := Some(now), write := InFlight,
          journal := r.journal + [Sent(id)])
        else r.(session := s, requested := Some(id), requestedAt := Some(now), failing := true)
      case (s, _) => r.(session := s, failing := true)
  }

  /** A reply of the handshake must carry the pending id. */
  function Handshake<M>(wire: Wire<M>, deadline: int, r: Runner<M>, m: M, entry: int, now: int): Runner<M>
  {
    if wire.id(m).None? || wire.id(m) != r.session.pendingId then Deny(r)
    else
      match r.stage
      case Initializing =>
        var (s, answer) := Step(wire.reader, r.session, AcceptInitialize(m));
        if answer == Thrown then Deny(r.(session := s))
        else
          var announced := Step(wire.reader, s, AnnounceInitialized).0;
          r.(stage := Threading, session := Step(wire.reader, announced, StartThread).0)
      case Threading =>
        var (s, answer) := Step(wire.reader, r.session, AcceptThread(m));
        if answer == Thrown || !s.restrictionsAccepted then Deny(r.(session := s))
        else
          var (t, sent) := Step(wire.reader, s, StartTurn(wire.challenge));
          if sent == Thrown then Deny(r.(session := t)) else r.(stage := Turning, session := t)
      case _ =>
        var (s, answer) := Step(wire.reader, r.session, AcceptTurn(m));
        if answer == Thrown || s.threadId.None? || s.turnId.None? then Deny(r.(session := s))
        else
          var ready := r.(session := s, stage := Reading);
          Head(deadline, if r.aborted then RequestInterrupt(wire, deadline, ready, entry) else ready, now)
  }

  function Noted<M>(r: Runner<M>, s: State, m: M, id: int, hash: Text): Runner<M>
  {
    r.(session := s, evidence := Some((id, hash)), journal := r.journal + [Acked(m, hash)], count := r.count + 1)
  }

  /** The reply to the interrupt, once its write has settled. */
  function Acknowledge<M>(wire: Wire<M>, deadline: int, r: Runner<M>, m: M, now: int): Runner<M>
  {
    match Step(wire.reader, r.session, AcceptInterrupt(m))
    case (s, Acknowledged(id, hash)) =>
      Head(deadline, Noted(r, s, m, id, hash), now)
    case (s, _) => Deny(r.(session := s))
  }

  function UsageOf<M>(wire: Wire<M>, progress: seq<Text>, tokens: seq<Text>): (u: Option<Usage>)
  {
    match (wire.progressHash(progress), wire.tokenHash(tokens))
    case (Some(p), Some(t)) => Some(Usage(|progress|, p, |tokens|, t, |tokens| != 0))
    case _ => None
  }

  /** The terminal message: completed without an interrupt, interrupted with one. */
  function Terminate<M>(wire: Wire<M>, r: Runner<M>, m: M): Runner<M>
  {
    if r.requested.Some? && r.evidence.None? then Deny(r)
    else if r.requested.None? && wire.finalText(m) != Some(wire.token) then Deny(r)
    else
      match Step(wire.reader, r.session, AcceptTurnCompleted(m))
      case (s, Terminal(status, hash)) =>
        var ended := r.(session := s, journal := r.journal + [Ended(m)]);
        if status != (if r.requested.None? then Completed else Interrupted) then Deny(ended)
        else
          (match UsageOf(wire, r.progress, r.tokens)
           case None => Deny(ended)
           case Some(usage) =>
             ended.(stage := Over(Returned(Evidence(s.threadId, s.turnId, status, hash,
                                                    if status == Interrupted then r.evidence else None, usage)))))
      case (s, _) => Deny(r.(session := s))
  }

  function Advanced<M>(r: Runner<M>, m: M, p: Progress): Runner<M>
  {
    r.(progress := r.progress + [p.hash], tokens := if p.tokenUsage then r.tokens + [p.hash] else r.tokens,
       count := r.count + 1, seen := r.seen + [m])
  }

  function Advance<M>(wire: Wire<M>, deadline: int, r: Runner<M>, m: M, now: int): Runner<M>
  {
    match wire.progress(m, r.session.threadId, r.session.turnId)
    case None => Deny(r)
    case Some(p) => Head(deadline, Advanced(r, m, p), now)
  }

  function Receive<M>(wire: Wire<M>, deadline: int, r: Runner<M>, m: M, now: int): Runner<M>
  {
    if r.requested.Some? && wire.hasId(m) then
      if wire.id(m) != r.requested || r.write == Broken then Deny(r)
      else if r.write == InFlight then r.(stage := AwaitingWrite(m))
      else Acknowledge(wire, deadline, r, m, now)
    else if wire.completes(m) then Terminate(wire, r, m)
    else Advance(wire, deadline, r, m, now)
  }

  function Settle<M>(wire: Wire<M>, deadline: int, r: Runner<M>, ok: bool, now: int): Runner<M>
  {
    if r.write != InFlight then r
    else if !ok then
      var broken := r.(write := Broken, failing := true);
      if r.stage.AwaitingWrite? then Deny(broken) else broken
    else
      var written := r.(write := Written, journal := r.journal + [Flushed]);
      if r.stage.AwaitingWrite? then Acknowledge(wire, deadline, written, r.stage.reply, now) else written
  }

  function Next<M>(wire: Wire<M>, deadline: int, r: Runner<M>, e: Event<M>): Runner<M>
  {
    if r.stage.Over? then r
    else
      match e
      case Arrives(m, entry, now) =>
        if r.stage.Reading? then Receive(wire, deadline, r, m, now)
        else if r.stage.AwaitingWrite? then r
        else Handshake(wire, deadline, r, m, entry, now)
      case AbortFires(now) =>
        var aborted := r.(aborted := true);
        if r.stage.Reading? || r.stage.AwaitingWrite? then RequestInterrupt(wire, deadline, aborted, now) else aborted
      case WriteSettles(ok, now) => Settle(wire, deadline, r, ok, now)
      case FailureSurfaces => if r.failing && r.stage.Reading? then Deny(r) else r
      case Breaks => Deny(r)
  }

  function Run<M>(wire: Wire<M>, deadline: int, r: Runner<M>, events: seq<Event<M>>): (last: Runner<M>)
    decreases |events|
  {
    if events == [] then r else Run(wire, deadline, Next(wire, deadline, r, events[0]), events[1..])
  }

  // ----- the clock -----

  /** The last clock sample after an event. */
  function Latest<M>(last: int, e: Event<M>): int
  {
    match e
    case Arrives(_, _, now) => now
    case AbortFires(now) => now
    case WriteSettles(_, now) => now
    case _ => last
  }

  predicate Follows<M>(last: int, e: Event<M>)
  {
    last <= Latest(last, e) && (e.Arrives? ==> last <= e.entry <= e.now)
  }

  /** The clock never goes back over these events. */
  predicate Steady<M>(last: int, events: seq<Event<M>>)
    decreases |events|
  {
    events == [] || (Follows(last, events[0]) && Steady(Latest(last, events[0]), events[1..]))
  }

  function EndClock<M>(last: int, events: seq<Event<M>>): int
    decreases |events|
  {
    if events == [] then last else EndClock(Latest(last, events[0]), events[1..])
  }

  // ----- what every run keeps -----

  /** The hashes of the progress messages, and of those that report token usage. */
  function Hashes<M>(
    wire: Wire<M>, threadId: Option<Text>, turnId: Option<Text>, seen: seq<M>, tokensOnly: bool): (hs: seq<Text>)
  {
    if seen == [] then []
    else
      var before := Hashes(wire, threadId, turnId, seen[..|seen| - 1], tokensOnly);
      match wire.progress(seen[|seen| - 1], threadId, turnId)
      case None => before
      case Some(p) => if tokensOnly && !p.tokenUsage then before else before + [p.hash]
  }

  predicate Quiet<M>(r: Runner<M>)
  {
    r.requested == None && r.requestedAt == None && r.write == NotStarted && !r.failing && r.evidence == None &&
      r.journal == []
  }

  /** The last entry is a reply that was accepted for request 4. */
  ghost predicate EndsAcknowledged<M>(wire: Wire<M>, journal: seq<Entry<M>>, hash: Text)
  {
    |journal| > 0 &&
    var last := journal[|journal| - 1];
    last.Acked? && last.hash == hash && wire.reader.interrupt(last.reply, Some(4)) == Some(hash)
  }

  /** Sent, flushed and acknowledged; a request made too late is never sent, and only acknowledged. */
  ghost predicate AcknowledgedJournal<M>(wire: Wire<M>, journal: seq<Entry<M>>, hash: Text, late: bool)
  {
    && EndsAcknowledged(wire, journal, hash)
    && journal[..|journal| - 1] == if late then [] else [Sent(4), Flushed]
  }

  /** An interrupt has been requested; `late` says that no time was left then, so nothing was written. */
  ghost predicate Interrupting<M>(
    wire: Wire<M>, awaiting: bool, phase: Phase, write: Write, evidence: Option<(int, Text)>, journal: seq<Entry<M>>,
    late: bool)
  {
    && (awaiting ==> write == InFlight) && (late <==> write == NotStarted)
    && match evidence
       case Some(e) =>
         e.0 == 4 && phase == InterruptAcknowledged && (late || write == Written) &&
           AcknowledgedJournal(wire, journal, e.1, late)
       case None =>
         phase == InterruptPending && journal == if late then [] else if write == Written then [Sent(4), Flushed]
           else [Sent(4)]
  }

  /** Where the interrupt stands while the loop runs. */
  ghost predicate InterruptStands<M>(wire: Wire<M>, deadline: int, r: Runner<M>)
  {
    if r.requested == None then r.session.phase == TurnActive && Quiet(r) && !r.aborted && r.stage.Reading?
    else
      && r.requested == Some(4) && r.aborted && r.requestedAt.Some?
      && Interrupting(wire, r.stage.AwaitingWrite?, r.session.phase, r.write, r.evidence, r.journal,
         r.requestedAt.value >= deadline)
  }

  /** Every iteration but the acknowledgement kept one progress event. */
  ghost predicate Counted<M>(wire: Wire<M>, r: Runner<M>)
  {
    && r.count == |r.progress| + (if r.evidence.Some? then 1 else 0)
    && Kept(wire, r.session.threadId, r.session.turnId, r.seen, r.progress, r.tokens)
  }

  ghost predicate Kept<M>(
    wire: Wire<M>, threadId: Option<Text>, turnId: Option<Text>, seen: seq<M>, progress: seq<Text>, tokens: seq<Text>)
  {
    && |tokens| <= |progress|
    && progress == Hashes(wire, threadId, turnId, seen, false)
    && tokens == Hashes(wire, threadId, turnId, seen, true)
  }

  lemma {:induction false} KeptGrows<M>(
    wire: Wire<M>, threadId: Option<Text>, turnId: Option<Text>, seen: seq<M>, progress: seq<Text>, tokens: seq<Text>,
    m: M)
    requires Kept(wire, threadId, turnId, seen, progress, tokens)
    ensures match wire.progress(m, threadId, turnId)
            case None => true
            case Some(p) =>
              Kept(wire, threadId, turnId, seen + [m], progress + [p.hash], if p.tokenUsage then tokens + [p.hash]
                else tokens)
  {
    assert (seen + [m])[..|seen|] == seen;
  }

  /** What evidence of a run proves about it. */
  ghost predicate Sound<M>(wire: Wire<M>, deadline: int, r: Runner<M>, e: Evidence)
  {
    && Counted(wire, r)
    && |r.progress| <= 127
    && UsageOf(wire, r.progress, r.tokens) == Some(e.usage)
    && e.threadId == r.session.threadId && e.turnId == r.session.turnId
    && e.threadId.Some? && e.turnId.Some? && r.session.restrictionsAccepted
    && match e.status
       case Completed =>
         && !r.aborted && r.requested == None && e.interrupt == None
         && |r.journal| == 1 && r.journal[0].Ended?
         && wire.finalText(r.journal[0].message) == Some(wire.token)
         && EndedWith(wire, e, r.journal[0].message)
       case Interrupted =>
         && r.aborted && r.requested == Some(4) && r.requestedAt.Some?
         && e.interrupt.Some? && e.interrupt.value.0 == 4 && |r.progress| <= 126
         && InterruptedJournal(wire, r.journal, e, r.requestedAt.value >= deadline)
       case Failure => false
  }

  /** The entries up to the acknowledgement, then the terminal message. */
  ghost predicate InterruptedJournal<M>(wire: Wire<M>, journal: seq<Entry<M>>, e: Evidence, late: bool)
    requires e.interrupt.Some?
  {
    |journal| > 0 &&
    var last := |journal| - 1;
    journal[last].Ended? && EndedWith(wire, e, journal[last].message) &&
      AcknowledgedJournal(wire, journal[..last], e.interrupt.value.1, late)
  }

  /** The terminal message was read as this status, with this hash, for this thread and turn. */
  ghost predicate EndedWith<M>(wire: Wire<M>, e: Evidence, m: M)
  {
    match wire.reader.terminal(m, e.threadId, e.turnId)
    case None => false
    case Some(t) => t.status == e.status && t.hash == e.messageHash && t.bytes <= MAX_EVENT_BYTES
  }

  ghost predicate Inv<M>(wire: Wire<M>, deadline: int, r: Runner<M>)
  {
    match r.stage
    case Over(Denied) => true
    case Over(Returned(e)) => Sound(wire, deadline, r, e)
    case Initializing => Handshaking(r, InitializePending)
    case Threading => Handshaking(r, ThreadPending)
    case Turning => Handshaking(r, TurnPending) && r.session.restrictionsAccepted
    case _ => Looping(wire, deadline, r)
  }

  ghost predicate Handshaking<M>(r: Runner<M>, phase: Phase)
  {
    r.session.phase == phase && Consistent(r.session) && Quiet(r) && r.progress == [] && r.tokens == [] &&
      r.count == 0 && r.seen == []
  }

  ghost predicate Looping<M>(wire: Wire<M>, deadline: int, r: Runner<M>)
  {
    Looped(wire, deadline, r) && r.count < MAX_PROGRESS_EVENTS
  }

  /** An iteration has ended; the limit is looked at next. */
  ghost predicate Looped<M>(wire: Wire<M>, deadline: int, r: Runner<M>)
  {
    && Consistent(r.session) && r.session.restrictionsAccepted && InterruptStands(wire, deadline, r) && Counted(wire, r)
    && r.count <= MAX_PROGRESS_EVENTS
  }

  // ----- one step at a time -----

  lemma {:induction false} HeadKeeps<M>(wire: Wire<M>, deadline: int, r: Runner<M>, now: int)
    requires Looped(wire, deadline, r.(stage := Reading))
    ensures Inv(wire, deadline, Head(deadline, r, now))
  {
  }

  lemma {:induction false} InitializeKeeps<M>(wire: Wire<M>, deadline: int, r: Runner<M>, m: M, entry: int, now: int)
    requires r.stage.Initializing? && Handshaking(r, InitializePending)
    ensures Inv(wire, deadline, Handshake(wire, deadline, r, m, entry, now))
  {
  }

  lemma {:induction false} ThreadKeeps<M>(wire: Wire<M>, deadline: int, r: Runner<M>, m: M, entry: int, now: int)
    requires r.stage.Threading? && Handshaking(r, ThreadPending)
    ensures Inv(wire, deadline, Handshake(wire, deadline, r, m, entry, now))
  {
  }

  lemma {:induction false} TurnKeeps<M>(wire: Wire<M>, deadline: int, r: Runner<M>, m: M, entry: int, now: int)
    requires r.stage.Turning? && Handshaking(r, TurnPending) && r.session.restrictionsAccepted
    ensures Inv(wire, deadline, Handshake(wire, deadline, r, m, entry, now))
  {
    var (s, answer) := Step(wire.reader, r.session, AcceptTurn(m));
    if wire.id(m).Some? && wire.id(m) == r.session.pendingId && answer != Thrown && s.threadId.Some? && s.turnId.Some? {
      var ready := r.(session := s, stage := Reading);
      assert Looped(wire, deadline, ready.(aborted := false));
      if r.aborted {
        RequestKeeps(wire, deadline, ready, entry);
        HeadKeeps(wire, deadline, RequestInterrupt(wire, deadline, ready, entry), now);
      } else {
        HeadKeeps(wire, deadline, ready, now);
      }
    }
  }

  lemma {:induction false} RequestKeeps<M>(wire: Wire<M>, deadline: int, r: Runner<M>, now: int)
    requires r.stage.Reading? || r.stage.AwaitingWrite?
    requires Looped(wire, deadline, r.(aborted := r.requested.Some?))
    requires r.aborted
    ensures RequestInterrupt(wire, deadline, r, now).count == r.count
    ensures Looped(wire, deadline, RequestInterrupt(wire, deadline, r, now))
  {
  }

  /** An accepted reply answers request 4 and moves the session on. */
  lemma {:induction false} AcknowledgedSession<M>(reader: Reader<M>, s: State, m: M)
    requires Consistent(s) && s.phase == InterruptPending
    ensures match Step(reader, s, AcceptInterrupt(m))
            case (t, Acknowledged(id, hash)) =>
              id == 4 && reader.interrupt(m, Some(4)) == Some(hash) &&
                t == s.(phase := InterruptAcknowledged, pendingId := None) && Consistent(t)
            case _ => true
  {
  }

  lemma {:induction false} AcknowledgedLoops<M>(wire: Wire<M>, deadline: int, r: Runner<M>, m: M, hash: Text)
    requires wire.reader.interrupt(m, Some(4)) == Some(hash)
    requires Looping(wire, deadline, r.(stage := Reading)) && r.requested.Some? &&
             (r.write == Written || r.write == NotStarted) && r.evidence.None?
    ensures var s := r.session.(phase := InterruptAcknowledged, pendingId := None);
            Consistent(s) && Looped(wire, deadline, Noted(r, s, m, 4, hash).(stage := Reading))
  {
  }

  lemma {:induction false} AcknowledgeFirst<M>(wire: Wire<M>, deadline: int, r: Runner<M>, m: M, now: int)
    requires Looping(wire, deadline, r.(stage := Reading))
    requires r.requested.Some? && (r.write == Written || r.write == NotStarted) && r.evidence.None?
    ensures Inv(wire, deadline, Acknowledge(wire, deadline, r, m, now))
  {
    AcknowledgedSession(wire.reader, r.session, m);
    match Step(wire.reader, r.session, AcceptInterrupt(m)) {
      case (s, Acknowledged(id, hash)) =>
        AcknowledgedLoops(wire, deadline, r, m, hash);
        HeadKeeps(wire, deadline, Noted(r, s, m, id, hash), now);
      case _ =>
    }
  }

  /** When the time is up, and after an acknowledgement, another is refused. */
  lemma {:induction false} AcknowledgeDenied<M>(wire: Wire<M>, deadline: int, r: Runner<M>, m: M, now: int)
    requires now >= deadline || r.session.phase == InterruptAcknowledged
    ensures Acknowledge(wire, deadline, r, m, now).stage == Over(Denied)
  {
  }

  lemma {:induction false} AcknowledgeKeeps<M>(wire: Wire<M>, deadline: int, r: Runner<M>, m: M, now: int)
    requires Looping(wire, deadline, r.(stage := Reading))
    requires r.requested.Some? && (r.write == Written || r.write == NotStarted)
    ensures Inv(wire, deadline, Acknowledge(wire, deadline, r, m, now))
  {
    if r.evidence.None? {
      AcknowledgeFirst(wire, deadline, r, m, now);
    } else {
      AcknowledgeDenied(wire, deadline, r, m, now);
    }
  }

  lemma {:induction false} CompletedKeeps<M>(wire: Wire<M>, deadline: int, r: Runner<M>, m: M, e: Evidence)
    requires Looping(wire, deadline, r) && r.stage.Reading? && r.requested.None?
    requires Terminate(wire, r, m).stage == Over(Returned(e))
    ensures Sound(wire, deadline, Terminate(wire, r, m), e)
  {
    assert r.journal == [];
    assert e.status == Completed;
  }

  lemma {:induction false} InterruptedKeeps<M>(wire: Wire<M>, deadline: int, r: Runner<M>, m: M, e: Evidence)
    requires Looping(wire, deadline, r) && r.stage.Reading? && r.requested.Some?
    requires Terminate(wire, r, m).stage == Over(Returned(e))
    ensures Sound(wire, deadline, Terminate(wire, r, m), e)
  {
    assert r.evidence.Some? && e.status == Interrupted;
    var t := Terminate(wire, r, m);
    assert t.journal == r.journal + [Ended(m)];
    assert t.journal[..|t.journal| - 1] == r.journal;
  }

  /** One more progress event. */
  lemma {:induction false} AdvanceLoops<M>(wire: Wire<M>, deadline: int, r: Runner<M>, m: M, p: Progress)
    requires Looping(wire, deadline, r) && r.stage.Reading?
    requires wire.progress(m, r.session.threadId, r.session.turnId) == Some(p)
    ensures Looped(wire, deadline, Advanced(r, m, p))
  {
    KeptGrows(wire, r.session.threadId, r.session.turnId, r.seen, r.progress, r.tokens, m);
  }

  lemma {:induction false} AdvanceKeeps<M>(wire: Wire<M>, deadline: int, r: Runner<M>, m: M, now: int)
    requires Looping(wire, deadline, r) && r.stage.Reading?
    ensures Inv(wire, deadline, Advance(wire, deadline, r, m, now))
  {
    match wire.progress(m, r.session.threadId, r.session.turnId) {
      case None =>
      case Some(p) =>
        AdvanceLoops(wire, deadline, r, m, p);
        HeadKeeps(wire, deadline, Advanced(r, m, p), now);
    }
  }

  lemma {:induction false} SettleKeeps<M>(wire: Wire<M>, deadline: int, r: Runner<M>, ok: bool, now: int)
    requires Looping(wire, deadline, r) && (r.stage.Reading? || r.stage.AwaitingWrite?)
    ensures Inv(wire, deadline, Settle(wire, deadline, r, ok, now))
  {
    if r.write == InFlight && ok && r.stage.AwaitingWrite? {
      AcknowledgeKeeps(wire, deadline, r.(write := Written, journal := r.journal + [Flushed]), r.stage.reply, now);
    }
  }

  lemma {:induction false} ReceiveKeeps<M>(wire: Wire<M>, deadline: int, r: Runner<M>, m: M, now: int)
    requires Looping(wire, deadline, r) && r.stage.Reading?
    ensures Inv(wire, deadline, Receive(wire, deadline, r, m, now))
  {
    if r.requested.Some? && wire.hasId(m) {
      if wire.id(m) == r.requested && (r.write == Written || r.write == NotStarted) {
        AcknowledgeKeeps(wire, deadline, r, m, now);
      }
    } else if wire.completes(m) {
      TerminateKeeps(wire, deadline, r, m, now);
    } else {
      AdvanceKeeps(wire, deadline, r, m, now);
    }
  }

  lemma {:induction false} TerminateKeeps<M>(wire: Wire<M>, deadline: int, r: Runner<M>, m: M, now: int)
    requires Looping(wire, deadline, r) && r.stage.Reading?
    ensures Inv(wire, deadline, Terminate(wire, r, m))
  {
    var t := Terminate(wire, r, m);
    if t.stage.Over? && t.stage.outcome.Returned? {
      if r.requested.None? {
        CompletedKeeps(wire, deadline, r, m, t.stage.outcome.evidence);
      } else {
        InterruptedKeeps(wire, deadline, r, m, t.stage.outcome.evidence);
      }
    }
  }

  lemma {:induction false} AbortKeeps<M>(wire: Wire<M>, deadline: int, r: Runner<M>, now: int)
    requires Inv(wire, deadline, r) && !r.stage.Over?
    ensures Inv(wire, deadline, Next(wire, deadline, r, AbortFires(now)))
  {
    if r.stage.Reading? || r.stage.AwaitingWrite? {
      var aborted := r.(aborted := true);
      assert aborted.(aborted := r.requested.Some?) == r;
      RequestKeeps(wire, deadline, aborted, now);
    }
  }

  lemma {:induction false} ArriveKeeps<M>(wire: Wire<M>, deadline: int, r: Runner<M>, m: M, entry: int, now: int)
    requires Inv(wire, deadline, r) && !r.stage.Over?
    ensures Inv(wire, deadline, Next(wire, deadline, r, Arrives(m, entry, now)))
  {
    match r.stage {
      case Initializing => InitializeKeeps(wire, deadline, r, m, entry, now);
      case Threading => ThreadKeeps(wire, deadline, r, m, entry, now);
      case Turning => TurnKeeps(wire, deadline, r, m, entry, now);
      case Reading => ReceiveKeeps(wire, deadline, r, m, now);
      case AwaitingWrite(_) =>
    }
  }

  lemma {:induction false} NextKeeps<M>(wire: Wire<M>, deadline: int, r: Runner<M>, e: Event<M>)
    requires Inv(wire, deadline, r)
    ensures Inv(wire, deadline, Next(wire, deadline, r, e))
  {
    if !r.stage.Over? {
      match e {
        case Arrives(m, entry, now) => ArriveKeeps(wire, deadline, r, m, entry, now);
        case AbortFires(now) => AbortKeeps(wire, deadline, r, now);
        case WriteSettles(ok, now) =>
          if r.stage.Reading? || r.stage.AwaitingWrite? { SettleKeeps(wire, deadline, r, ok, now); }
        case FailureSurfaces =>
        case Breaks =>
      }
    }
  }

  lemma {:induction false} RunKeeps<M>(wire: Wire<M>, deadline: int, r: Runner<M>, events: seq<Event<M>>)
    requires Inv(wire, deadline, r)
    ensures Inv(wire, deadline, Run(wire, deadline, r, events))
    decreases |events|
  {
    if events != [] {
      NextKeeps(wire, deadline, r, events[0]);
      RunKeeps(wire, deadline, Next(wire, deadline, r, events[0]), events[1..]);
    }
  }

  /**
   * Over every interleaving of the abort with reads and writes, and every clock, whatever the run
   * returns is sound: `completed` only if no abort was ever seen, no interrupt was requested and the
   * agent's text is the token; `interrupted` only after request 4 was acknowledged, and then it was
   * sent and flushed before, each once and in that order, exactly if time was left when it was made.
   * A run never returns a failed turn, and the evidence counts the progress and token events read.
   */
  lemma {:induction false} EveryRunIsSound<M>(wire: Wire<M>, deadline: int, events: seq<Event<M>>)
    ensures match Run(wire, deadline, Start(wire), events).stage
            case Over(Returned(e)) => Sound(wire, deadline, Run(wire, deadline, Start(wire), events), e)
            case _ => true
  {
    RunKeeps(wire, deadline, Start(wire), events);
  }

  // ----- with the clock -----

  /** A request made too late has found the deadline passed, and nothing can come of it. */
  ghost predicate LateStands<M>(deadline: int, r: Runner<M>, last: int)
  {
    r.requestedAt.Some? && r.requestedAt.value >= deadline ==>
      last >= deadline && r.requested.Some? && (r.stage == Over(Denied) || (!r.stage.Over? && r.evidence.None?))
  }

  lemma {:induction false} LateReceives<M>(wire: Wire<M>, deadline: int, r: Runner<M>, m: M, now: int)
    requires r.requested.Some? && r.evidence.None? && now >= deadline
    ensures var t := Receive(wire, deadline, r, m, now);
            t.stage == Over(Denied) || (t == r.(stage := AwaitingWrite(m)))
    ensures Acknowledge(wire, deadline, r, m, now).stage == Over(Denied)
  {
    AcknowledgeDenied(wire, deadline, r, m, now);
  }

  /** The handshake and the abort callback take the sample that a late request is made at. */
  lemma {:induction false} LateHandshake<M>(wire: Wire<M>, deadline: int, r: Runner<M>, m: M, entry: int, now: int)
    requires (r.stage.Initializing? || r.stage.Threading? || r.stage.Turning?) && Quiet(r) && entry <= now
    ensures LateStands(deadline, Handshake(wire, deadline, r, m, entry, now), now)
  {
  }

  lemma {:induction false} LateRequest<M>(wire: Wire<M>, deadline: int, r: Runner<M>, last: int, now: int)
    requires Inv(wire, deadline, r) && LateStands(deadline, r, last) && last <= now && !r.stage.Over?
    ensures LateStands(deadline, Next(wire, deadline, r, AbortFires(now)), now)
  {
  }

  lemma {:induction false} TimelyReceives<M>(wire: Wire<M>, deadline: int, r: Runner<M>, m: M, now: int)
    ensures Receive(wire, deadline, r, m, now).requestedAt == r.requestedAt
  {
  }

  lemma {:induction false} LateSettles<M>(wire: Wire<M>, deadline: int, r: Runner<M>, ok: bool, last: int, now: int)
    requires Inv(wire, deadline, r) && LateStands(deadline, r, last) && last <= now && !r.stage.Over?
    ensures LateStands(deadline, Settle(wire, deadline, r, ok, now), now)
  {
  }

  lemma {:induction false} LateReads<M>(wire: Wire<M>, deadline: int, r: Runner<M>, m: M, now: int, last: int)
    requires LateStands(deadline, r, last) && last <= now && r.stage.Reading?
    requires r.requestedAt.Some? && r.requestedAt.value >= deadline ==> r.write == NotStarted
    ensures LateStands(deadline, Receive(wire, deadline, r, m, now), now)
  {
    if r.requestedAt.Some? && r.requestedAt.value >= deadline {
      LateReceives(wire, deadline, r, m, now);
    } else {
      TimelyReceives(wire, deadline, r, m, now);
    }
  }

  /** A reader in the loop whose request was late has written nothing. */
  lemma {:induction false} LateIsUnwritten<M>(wire: Wire<M>, deadline: int, r: Runner<M>)
    requires Inv(wire, deadline, r)
    ensures r.stage.Reading? && r.requestedAt.Some? && r.requestedAt.value >= deadline ==> r.write == NotStarted
    ensures r.stage.Initializing? || r.stage.Threading? || r.stage.Turning? ==> Quiet(r)
  {
  }

  lemma {:induction false} LateArrives<M>(
    wire: Wire<M>, deadline: int, r: Runner<M>, m: M, entry: int, now: int, last: int)
    requires Inv(wire, deadline, r) && LateStands(deadline, r, last) && last <= entry <= now && !r.stage.Over?
    ensures LateStands(deadline, Next(wire, deadline, r, Arrives(m, entry, now)), now)
  {
    LateIsUnwritten(wire, deadline, r);
    if r.stage.Reading? {
      LateReads(wire, deadline, r, m, now, last);
    } else if !r.stage.AwaitingWrite? {
      LateHandshake(wire, deadline, r, m, entry, now);
    }
  }

  lemma {:induction false} LateNext<M>(wire: Wire<M>, deadline: int, r: Runner<M>, e: Event<M>, last: int)
    requires Inv(wire, deadline, r) && LateStands(deadline, r, last) && Follows(last, e)
    ensures LateStands(deadline, Next(wire, deadline, r, e), Latest(last, e))
  {
    if !r.stage.Over? {
      match e {
        case Arrives(m, entry, now) => LateArrives(wire, deadline, r, m, entry, now, last);
        case AbortFires(now) => LateRequest(wire, deadline, r, last, now);
        case WriteSettles(ok, now) => LateSettles(wire, deadline, r, ok, last, now);
        case FailureSurfaces =>
        case Breaks =>
      }
    }
  }

  lemma {:induction false} LateRun<M>(wire: Wire<M>, deadline: int, r: Runner<M>, events: seq<Event<M>>, last: int)
    requires Inv(wire, deadline, r) && LateStands(deadline, r, last) && Steady(last, events)
    ensures LateStands(deadline, Run(wire, deadline, r, events), EndClock(last, events))
    decreases |events|
  {
    if events != [] {
      NextKeeps(wire, deadline, r, events[0]);
      LateNext(wire, deadline, r, events[0], last);
      LateRun(wire, deadline, Next(wire, deadline, r, events[0]), events[1..], Latest(last, events[0]));
    }
  }

  /** On a clock that never goes back, a run returns `interrupted` only if time was left when the request was made. */
  lemma {:induction false} SteadyRunIsTimely<M>(wire: Wire<M>, deadline: int, started: int, events: seq<Event<M>>)
    requires Steady(started, events)
    ensures var last := Run(wire, deadline, Start(wire), events);
            match last.stage
            case Over(Returned(e)) => last.requestedAt.Some? ==> last.requestedAt.value < deadline
            case _ => true
  {
    LateRun(wire, deadline, Start(wire), events, started);
  }

  // ----- one request -----

  predicate OneInterrupt<M>(journal: seq<Entry<M>>)
  {
    forall i, j :: 0 <= i < j < |journal| && journal[i].Sent? ==> !journal[j].Sent?
  }

  predicate AskedOnce<M>(requested: Option<int>, journal: seq<Entry<M>>)
  {
    OneInterrupt(journal) && (requested.None? ==> forall i :: 0 <= i < |journal| ==> !journal[i].Sent?)
  }

  /** A step that makes no request: the journal stays, or gains an entry that is none. */
  ghost predicate AddsNoRequest<M>(r: Runner<M>, t: Runner<M>)
  {
    && t.requested == r.requested && |r.journal| <= |t.journal| <= |r.journal| + 1 &&
       t.journal[..|r.journal|] == r.journal
    && (|t.journal| == |r.journal| + 1 ==> !t.journal[|r.journal|].Sent?)
  }

  lemma {:induction false} AcknowledgeJournal<M>(wire: Wire<M>, deadline: int, r: Runner<M>, m: M, now: int)
    ensures AddsNoRequest(r, Acknowledge(wire, deadline, r, m, now))
  {
  }

  lemma {:induction false} TerminateJournal<M>(wire: Wire<M>, r: Runner<M>, m: M)
    ensures AddsNoRequest(r, Terminate(wire, r, m))
  {
  }

  lemma {:induction false} ArriveJournal<M>(wire: Wire<M>, deadline: int, r: Runner<M>, m: M, now: int)
    ensures AddsNoRequest(r, Receive(wire, deadline, r, m, now))
  {
    AcknowledgeJournal(wire, deadline, r, m, now);
    TerminateJournal(wire, r, m);
    assert r.journal[..|r.journal|] == r.journal;
  }

  lemma {:induction false} NoRequestAdded<M>(r: Runner<M>, t: Runner<M>)
    requires AskedOnce(r.requested, r.journal) && AddsNoRequest(r, t)
    ensures AskedOnce(t.requested, t.journal)
  {
    assert forall i :: 0 <= i < |r.journal| ==> t.journal[i] == t.journal[..|r.journal|][i];
  }

  lemma {:induction false} RequestJournal<M>(wire: Wire<M>, deadline: int, r: Runner<M>, now: int)
    requires AskedOnce(r.requested, r.journal)
    ensures var t := RequestInterrupt(wire, deadline, r, now); AskedOnce(t.requested, t.journal)
  {
  }

  lemma {:induction false} HandshakeJournal<M>(wire: Wire<M>, deadline: int, r: Runner<M>, m: M, entry: int, now: int)
    requires AskedOnce(r.requested, r.journal)
    ensures var t := Handshake(wire, deadline, r, m, entry, now); AskedOnce(t.requested, t.journal)
  {
    RequestJournal(wire, deadline, r.(session := Step(wire.reader, r.session, AcceptTurn(m)).0, stage := Reading),
      entry);
  }

  lemma {:induction false} SettleJournal<M>(wire: Wire<M>, deadline: int, r: Runner<M>, ok: bool, now: int)
    requires AskedOnce(r.requested, r.journal)
    ensures var t := Settle(wire, deadline, r, ok, now); AskedOnce(t.requested, t.journal)
  {
    if r.write == InFlight && ok {
      var written := r.(write := Written, journal := r.journal + [Flushed]);
      NoRequestAdded(r, written);
      if r.stage.AwaitingWrite? {
        AcknowledgeJournal(wire, deadline, written, r.stage.reply, now);
        NoRequestAdded(written, Acknowledge(wire, deadline, written, r.stage.reply, now));
      }
    }
  }

  lemma {:induction false} NextAsksOnce<M>(wire: Wire<M>, deadline: int, r: Runner<M>, e: Event<M>)
    requires AskedOnce(r.requested, r.journal)
    ensures var t := Next(wire, deadline, r, e); AskedOnce(t.requested, t.journal)
  {
    match e {
      case Arrives(m, entry, now) =>
        ArriveJournal(wire, deadline, r, m, now);
        NoRequestAdded(r, Receive(wire, deadline, r, m, now));
        HandshakeJournal(wire, deadline, r, m, entry, now);
      case AbortFires(now) => RequestJournal(wire, deadline, r.(aborted := true), now);
      case WriteSettles(ok, now) => SettleJournal(wire, deadline, r, ok, now);
      case _ =>
    }
  }

  /** Whatever the clock does, at most one interrupt is handed to the transport. */
  lemma {:induction false} RunAsksOnce<M>(wire: Wire<M>, deadline: int, r: Runner<M>, events: seq<Event<M>>)
    requires AskedOnce(r.requested, r.journal)
    ensures var t := Run(wire, deadline, r, events); AskedOnce(t.requested, t.journal)
    decreases |events|
  {
    if events != [] {
      NextAsksOnce(wire, deadline, r, events[0]);
      RunAsksOnce(wire, deadline, Next(wire, deadline, r, events[0]), events[1..]);
    }
  }

  // ----- why the clock matters -----

  /** A server that answers request n with n and ends the turn, interrupted, with 5. */
  function EchoWire(): Wire<int>
  {
    Wire(
      Reader(
        (m: int, pending: Option<int>) => pending == Some(m),
        (m: int, pending: Option<int>) => Some(ThreadReading(true, Some([97]))),
        (text: Text) => true,
        (m: int, pending: Option<int>) => Some([97]),
        (m: int, pending: Option<int>) => Some([98]),
        (m: int, threadId: Option<Text>, turnId: Option<Text>) => Some(TerminalReading(Interrupted, 1, [99]))),
      (m: int) => m <= 4, (m: int) => Some(m), (m: int) => m == 5, (m: int) => None,
      (m: int, threadId: Option<Text>, turnId: Option<Text>) => None,
      (hashes: seq<Text>) => Some([]), (hashes: seq<Text>) => Some([]), [], [])
  }

  const ECHO_EVENTS: seq<Event<int>> :=
    [Arrives(1, 0, 0), Arrives(2, 0, 0), Arrives(3, 0, 0), AbortFires(10), Arrives(4, 9, 9), Arrives(5, 9, 9)]

  /** The session of that run in the given phase. */
  function EchoSession(phase: Phase, nextId: int, pending: Option<int>, named: nat): State
  {
    State(phase, nextId, pending, if named > 0 then Some([97]) else None, if named > 1 then Some([97]) else None,
          None, named > 0, 0, 0)
  }

  function EchoStart(stage: Stage<int>, session: State): Runner<int>
  {
    Runner(stage, session, false, None, None, NotStarted, false, None, [], [], 0, [], [])
  }

  /** The abort finds no time left: the id is set and nothing is written. */
  function EchoAborted(): Runner<int>
  {
    EchoStart(Reading, EchoSession(InterruptPending, 5, Some(4), 2)).(aborted := true, requested := Some(4),
      requestedAt := Some(10), failing := true)
  }

  lemma {:induction false} EchoHandshake()
    ensures var w := EchoWire();
            && Start(w) == EchoStart(Initializing, EchoSession(InitializePending, 2, Some(1), 0))
            && Next(w, 10, Start(w), Arrives(1, 0, 0)) == EchoStart(Threading,
               EchoSession(ThreadPending, 3, Some(2), 0))
  {
  }

  lemma {:induction false} EchoThread()
    ensures Next(EchoWire(), 10, EchoStart(Threading, EchoSession(ThreadPending, 3, Some(2), 0)), Arrives(2, 0, 0)) ==
            EchoStart(Turning, EchoSession(TurnPending, 4, Some(3), 1))
  {
  }

  lemma {:induction false} EchoTurn()
    ensures Next(EchoWire(), 10, EchoStart(Turning, EchoSession(TurnPending, 4, Some(3), 1)), Arrives(3, 0, 0)) ==
            EchoStart(Reading, EchoSession(TurnActive, 4, None, 2))
    ensures Next(EchoWire(), 10, EchoStart(Reading, EchoSession(TurnActive, 4, None, 2)), AbortFires(10)) ==
            EchoAborted()
  {
  }

  lemma {:induction false} EchoAcknowledged()
    ensures var r := Next(EchoWire(), 10, EchoAborted(), Arrives(4, 9, 9));
            r == EchoAborted().(session := EchoSession(InterruptAcknowledged, 5, None, 2), evidence := Some((4, [98])),
              count := 1,
                                journal := [Acked(4, [98])])
  {
  }

  lemma {:induction false} EchoTerminal(s: State)
    requires s == EchoSession(InterruptAcknowledged, 5, None, 2)
    ensures Step(EchoWire().reader, s, AcceptTurnCompleted(5)).1 == Terminal(Interrupted, [99])
  {
  }

  lemma {:induction false} EchoEnds(r: Runner<int>)
    requires r == EchoAborted().(session := EchoSession(InterruptAcknowledged, 5, None, 2), evidence := Some((4, [98])),
             count := 1,
                                 journal := [Acked(4, [98])])
    ensures var t := Next(EchoWire(), 10, r, Arrives(5, 9, 9));
            && t.stage.Over? && t.stage.outcome.Returned? && t.stage.outcome.evidence.status == Interrupted
            && t.journal == [Acked(4, [98]), Ended(5)]
  {
    EchoTerminal(r.session);
    assert Next(EchoWire(), 10, r, Arrives(5, 9, 9)) == Terminate(EchoWire(), r, 5);
  }

  lemma {:induction false} RunOne<M>(wire: Wire<M>, deadline: int, r: Runner<M>, es: seq<Event<M>>, i: nat)
    requires i < |es|
    ensures Run(wire, deadline, r, es[i..]) == Run(wire, deadline, Next(wire, deadline, r, es[i]), es[i + 1..])
  {
    assert es[i..][1..] == es[i + 1..];
  }

  /**
   * On a clock that goes back the promise fails: the abort finds no time left, so the interrupt is
   * never handed to the transport, yet the run returns `interrupted`.
   */
  lemma {:induction false} BackwardClockInterruptsUnsent()
    ensures var r := Run(EchoWire(), 10, Start(EchoWire()), ECHO_EVENTS);
            && r.stage.Over? && r.stage.outcome.Returned? && r.stage.outcome.evidence.status == Interrupted
            && r.journal == [Acked(4, [98]), Ended(5)]
  {
    EchoRuns(EchoWire(), Start(EchoWire()));
  }

  lemma {:induction false} EchoRuns(w: Wire<int>, r: Runner<int>)
    requires w == EchoWire() && r == Start(w)
    ensures var r := Run(w, 10, r, ECHO_EVENTS);
            && r.stage.Over? && r.stage.outcome.Returned? && r.stage.outcome.evidence.status == Interrupted
            && r.journal == [Acked(4, [98]), Ended(5)]
  {
    EchoHandshake();
    EchoThread();
    EchoTurn();
    EchoAcknowledged();
    var r1 := Next(w, 10, r, ECHO_EVENTS[0]);
    var r2 := Next(w, 10, r1, ECHO_EVENTS[1]);
    var r3 := Next(w, 10, r2, ECHO_EVENTS[2]);
    var r4 := Next(w, 10, r3, ECHO_EVENTS[3]);
    var r5 := Next(w, 10, r4, ECHO_EVENTS[4]);
    EchoEnds(r5);
    RunSix(w, 10, r, ECHO_EVENTS);
  }

  lemma {:induction false} RunSix<M>(wire: Wire<M>, deadline: int, r: Runner<M>, es: seq<Event<M>>)
    requires |es| == 6
    ensures Run(wire, deadline, r, es) ==
            Next(wire, deadline, Next(wire, deadline, Next(wire, deadline, Next(wire, deadline, Next(wire, deadline,
              Next(wire, deadline, r, es[0]), es[1]), es[2]), es[3]), es[4]), es[5])
  {
    var r1 := Next(wire, deadline, r, es[0]);
    var r2 := Next(wire, deadline, r1, es[1]);
    var r3 := Next(wire, deadline, r2, es[2]);
    var r4 := Next(wire, deadline, r3, es[3]);
    var r5 := Next(wire, deadline, r4, es[4]);
    assert es[0..] == es;
    RunOne(wire, deadline, r, es, 0);
    RunOne(wire, deadline, r1, es, 1);
    RunOne(wire, deadline, r2, es, 2);
    RunOne(wire, deadline, r3, es, 3);
    RunOne(wire, deadline, r4, es, 4);
    RunOne(wire, deadline, r5, es, 5);
  }
}
