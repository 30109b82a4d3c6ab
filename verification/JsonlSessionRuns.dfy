/** Whole runs of the session: any number of calls, arriving at any time. */
module JsonlSessionRuns {
  import opened Outcomes
  import opened Texts
  import opened Framing
  import opened JsonlSession

  /** A call arrives, the lease of the call in flight ends, or that call hands over its outcome. */
  datatype Event = Arrives(chunk: Option<Bytes>, now: int) | LeaseEnded(lease: Lease, commitAt: int) | Settled

  /** The session and what it has done: the bytes and frames it committed, the frames callers got. */
  datatype Log<T> = Log(state: State<T>, input: Bytes, lines: seq<Bytes>, frames: seq<T>, delivered: seq<T>)

  ghost function Start<T>(): Log<T> { Log(InitialState(), [], [], [], []) }

  /** Did this arrival only add to the buffer? */
  ghost predicate Buffers<T>(host: Host<T>, context: Context, s: State<T>, chunk: Option<Bytes>, now: int)
  {
    s.active && s.flight.Idle? && Prepare(host, context, s, chunk, now).Buffered?
  }

  ghost function Apply<T>(host: Host<T>, context: Context, log: Log<T>, event: Event): (r: Log<T>)
  {
    match event
    case Arrives(chunk, now) =>
      var s := Ingest(host, context, log.state, chunk, now).0;
      if Buffers(host, context, log.state, chunk, now) then log.(state := s, input := log.input + chunk.value)
      else log.(state := s)
    case LeaseEnded(lease, commitAt) =>
      if !log.state.flight.AwaitingLease? then log
      else
        var p := log.state.flight.pending;
        var s := LeaseEnds(host, context, log.state, lease, commitAt);
        if s.flight.result.Ok? then
          log.(state := s, input := log.input + p.chunk, lines := log.lines + p.lines, frames := log.frames + p.frames)
        else log.(state := s)
    case Settled =>
      if !log.state.flight.Settling? then log
      else
        var result := log.state.flight.result;
        log.(state := Settle(log.state), delivered := if result.Ok? then log.delivered + result.value
          else log.delivered)
  }

  ghost function Run<T>(host: Host<T>, context: Context, log: Log<T>, events: seq<Event>): (r: Log<T>)
    decreases |events|
  {
    if events == [] then log else Run(host, context, Apply(host, context, log, events[0]), events[1..])
  }

  // ----- what every run keeps -----

  /** A batch waiting for its lease is the cutting of the buffer and its chunk. */
  ghost predicate Fits<T>(host: Host<T>, s: State<T>, p: Pending<T>)
  {
    && p.lines == Lines(s.buffer + p.chunk) && p.remainder == Remainder(s.buffer + p.chunk)
    && p.lines != [] && Decodes(host, p.lines, p.frames) && CarriesOn(host, p.frames, s.acceptedFrames)
    && |p.remainder| < MAX_LINE_BYTES
    && s.acceptedFrames + |p.frames| <= MAX_SESSION_FRAMES
    && s.ingestedBytes + |p.chunk| <= MAX_SESSION_BYTES
  }

  ghost predicate Counts<T>(log: Log<T>)
  {
    && log.state.acceptedFrames == |log.frames| <= MAX_SESSION_FRAMES
    && log.state.nextSequence == |log.frames| + 1
    && log.state.capabilitiesAccepted == (log.frames != [])
    && log.state.ingestedBytes == |log.input| <= MAX_SESSION_BYTES
  }

  /** The committed frames are numbered from one, the first and only the first is CAPABILITIES. */
  ghost predicate Frames<T>(host: Host<T>, log: Log<T>)
  {
    && Decodes(host, log.lines, log.frames)
    && CarriesOn(host, log.frames, 0)
    && forall i :: 0 <= i < |log.lines| ==> IsLine(log.lines[i])
  }

  /** No byte is lost: the committed bytes are the committed lines and, while active, the buffer. */
  ghost predicate Conserved<T>(log: Log<T>)
  {
    && (log.state.active ==> log.input == Concat(log.lines) + log.state.buffer && NEWLINE !in log.state.buffer)
    && (!log.state.active ==> Concat(log.lines) <= log.input && log.state.buffer == [])
    && |log.state.buffer| < MAX_LINE_BYTES
  }

  /** What callers got, and what the call about to return will get, is what was committed. */
  ghost predicate Delivered<T>(log: Log<T>)
  {
    log.frames ==
    if log.state.flight.Settling? && log.state.flight.result.Ok? then log.delivered + log.state.flight.result.value
    else log.delivered
  }

  ghost predicate Consistent<T>(host: Host<T>, log: Log<T>)
  {
    && Counts(log) && Frames(host, log) && Conserved(log) && Delivered(log)
    && (log.state.active && log.state.flight.AwaitingLease? ==> Fits(host, log.state, log.state.flight.pending))
  }

  lemma {:induction false} PreparedFits<T>(host: Host<T>, context: Context, s: State<T>, chunk: Option<Bytes>, now: int)
    requires s.nextSequence == s.acceptedFrames + 1 && s.capabilitiesAccepted == (s.acceptedFrames > 0)
    requires Prepare(host, context, s, chunk, now).Batch?
    ensures Fits(host, s, Prepare(host, context, s, chunk, now).pending)
  {
    AdmittedFrames(host, Lines(s.buffer + chunk.value), s.acceptedFrames);
  }

  lemma {:induction false} BufferedFits<T>(host: Host<T>, context: Context, s: State<T>, chunk: Option<Bytes>, now: int)
    requires Prepare(host, context, s, chunk, now).Buffered?
    ensures var rest := Prepare(host, context, s, chunk, now).remainder;
            chunk.Some? && rest == s.buffer + chunk.value && NEWLINE !in rest && |rest| < MAX_LINE_BYTES &&
            s.ingestedBytes + |chunk.value| <= MAX_SESSION_BYTES
  {
    var candidate := s.buffer + chunk.value;
    LinesConcat(candidate);
    LinesShape(candidate);
    assert [] + Remainder(candidate) == Remainder(candidate);
  }

  lemma {:induction false} PrefixOfConcat(a: Bytes, b: Bytes)
    ensures a <= a + b
  {
  }

  lemma {:induction false} ArrivalKeeps<T>(host: Host<T>, context: Context, log: Log<T>, chunk: Option<Bytes>, now: int)
    requires Consistent(host, log)
    ensures Consistent(host, Apply(host, context, log, Arrives(chunk, now)))
  {
    var s := log.state;
    if s.active && !s.flight.Idle? {
      PrefixOfConcat(Concat(log.lines), s.buffer);
    } else if s.active {
      match Prepare(host, context, s, chunk, now) {
        case Refused(code) =>
        case Buffered(remainder) =>
          BufferedFits(host, context, s, chunk, now);
          Reassociate(Concat(log.lines), s.buffer, chunk.value);
          assert log.delivered + [] == log.delivered;
        case Batch(pending) => PreparedFits(host, context, s, chunk, now);
      }
    }
  }

  lemma {:induction false} CommitKeepsFrames<T>(host: Host<T>, log: Log<T>, p: Pending<T>)
    requires Frames(host, log) && |log.frames| == log.state.acceptedFrames && Fits(host, log.state, p)
    ensures Frames(host, log.(lines := log.lines + p.lines, frames := log.frames + p.frames))
  {
    LinesShape(log.state.buffer + p.chunk);
    var lines, frames := log.lines + p.lines, log.frames + p.frames;
    forall i | 0 <= i < |lines|
      ensures && host.decode(lines[i]) == Some(frames[i]) && IsLine(lines[i])
              && host.sequence(frames[i]) == i + 1 && host.kind(frames[i]) != NotFromRuntime
              && (host.kind(frames[i]) == Capabilities <==> i == 0)
    {
      if i < |log.lines| {
        assert lines[i] == log.lines[i] && frames[i] == log.frames[i];
      } else {
        assert lines[i] == p.lines[i - |log.lines|] && frames[i] == p.frames[i - |log.lines|];
      }
    }
  }

  lemma {:induction false} CommitKeepsBytes<T>(host: Host<T>, log: Log<T>, p: Pending<T>)
    requires log.input == Concat(log.lines) + log.state.buffer && Fits(host, log.state, p)
    ensures log.input + p.chunk == Concat(log.lines + p.lines) + p.remainder && NEWLINE !in p.remainder
  {
    var candidate := log.state.buffer + p.chunk;
    LinesConcat(candidate);
    LinesShape(candidate);
    ConcatJoins(log.lines, p.lines);
    Reassociate(Concat(log.lines), log.state.buffer, p.chunk);
    Reassociate(Concat(log.lines), Concat(p.lines), p.remainder);
  }

  lemma {:induction false} LeaseKeeps<T>(host: Host<T>, context: Context, log: Log<T>, lease: Lease, commitAt: int)
    requires Consistent(host, log)
    ensures Consistent(host, Apply(host, context, log, LeaseEnded(lease, commitAt)))
  {
    if log.state.flight.AwaitingLease? {
      var p := log.state.flight.pending;
      if LeaseOutcome(host, context, log.state, p.frames, lease, commitAt).Ok? {
        CommitKeepsFrames(host, log, p);
        CommitKeepsBytes(host, log, p);
      }
    }
  }

  lemma {:induction false} SettleKeeps<T>(host: Host<T>, context: Context, log: Log<T>)
    requires Consistent(host, log)
    ensures Consistent(host, Apply(host, context, log, Settled))
  {
    PrefixOfConcat(Concat(log.lines), log.state.buffer);
  }

  lemma {:induction false} StepKeeps<T>(host: Host<T>, context: Context, log: Log<T>, event: Event)
    requires Consistent(host, log)
    ensures Consistent(host, Apply(host, context, log, event))
  {
    match event {
      case Arrives(chunk, now) => ArrivalKeeps(host, context, log, chunk, now);
      case LeaseEnded(lease, commitAt) => LeaseKeeps(host, context, log, lease, commitAt);
      case Settled => SettleKeeps(host, context, log);
    }
  }

  lemma {:induction false} RunKeeps<T>(host: Host<T>, context: Context, log: Log<T>, events: seq<Event>)
    requires Consistent(host, log)
    ensures Consistent(host, Run(host, context, log, events))
    decreases |events|
  {
    if events != [] {
      StepKeeps(host, context, log, events[0]);
      RunKeeps(host, context, Apply(host, context, log, events[0]), events[1..]);
    }
  }

  /**
   * Over every run from a new session, the frames committed are numbered 1..n, the first is
   * CAPABILITIES and no other is, no byte is lost between chunks, and callers get the committed
   * frames in order and nothing else.
   */
  lemma {:induction false} EveryRun<T>(host: Host<T>, context: Context, events: seq<Event>)
    ensures var log := Run(host, context, Start(), events);
            && Consistent(host, log)
            && (log.state.active ==> Lines(log.input) == log.lines && Remainder(log.input) == log.state.buffer)
  {
    assert Consistent(host, Start<T>());
    RunKeeps(host, context, Start(), events);
    var log := Run(host, context, Start(), events);
    if log.state.active {
      LinesAreUnique(log.lines, log.state.buffer);
    }
  }

  // ----- all or nothing -----

  /** The counters a failed call must not move. */
  ghost predicate SameCounters<T>(a: Log<T>, b: Log<T>)
  {
    && a.state.nextSequence == b.state.nextSequence && a.state.acceptedFrames == b.state.acceptedFrames
    && a.state.ingestedBytes == b.state.ingestedBytes && a.state.capabilitiesAccepted == b.state.capabilitiesAccepted
    && a.input == b.input && a.frames == b.frames
  }

  /** A failed session stays failed and commits nothing more, whatever happens. */
  lemma {:induction false} FailedForever<T>(host: Host<T>, context: Context, log: Log<T>, events: seq<Event>)
    requires !log.state.active
    ensures var later := Run(host, context, log, events); !later.state.active && SameCounters(log, later)
    decreases |events|
  {
    if events != [] {
      var next := Apply(host, context, log, events[0]);
      assert !next.state.active && SameCounters(log, next);
      FailedForever(host, context, next, events[1..]);
    }
  }

  ghost predicate NoneSettles(events: seq<Event>) { forall i :: 0 <= i < |events| ==> events[i] != Settled }

  /** Has the call in flight committed a batch, or is it only going to hand over buffered bytes? */
  ghost predicate HasOutcome<T>(s: State<T>) { s.flight.Settling? && s.flight.result.Ok? }

  /** Until the call in flight is settled, it alone can move the counters, and only by committing. */
  lemma {:induction false} OnlyCommitMoves<T>(host: Host<T>, context: Context, log: Log<T>, events: seq<Event>)
    requires NoneSettles(events) && !log.state.flight.Idle?
    ensures var later := Run(host, context, log, events);
            && !later.state.flight.Idle?
            && (HasOutcome(log.state) ==> later.state.flight == log.state.flight && SameCounters(log, later))
            && (!HasOutcome(later.state) ==> SameCounters(log, later))
    decreases |events|
  {
    if events != [] {
      var next := Apply(host, context, log, events[0]);
      assert events[0] != Settled;
      OnlyCommitMoves(host, context, next, events[1..]);
    }
  }

  /**
   * A call that ends in a denial changed nothing: whatever arrives while it is in flight, the
   * counters are those from before the call, and the session has failed for good.
   */
  lemma {:induction false} DeniedIngestChangesNothing<T>(host: Host<T>, context: Context, log: Log<T>,
      chunk: Option<Bytes>, now: int, meanwhile: seq<Event>, afterwards: seq<Event>)
    requires log.state.active && log.state.flight.Idle? && NoneSettles(meanwhile)
    ensures var inFlight := Run(host, context, Apply(host, context, log, Arrives(chunk, now)), meanwhile);
            inFlight.state.flight.Settling? && inFlight.state.flight.result.Denied? ==>
              var later := Run(host, context, Apply(host, context, inFlight, Settled), afterwards);
              SameCounters(log, later) && !later.state.active
  {
    var started := Apply(host, context, log, Arrives(chunk, now));
    OnlyCommitMoves(host, context, started, meanwhile);
    var inFlight := Run(host, context, started, meanwhile);
    if inFlight.state.flight.Settling? && inFlight.state.flight.result.Denied? {
      FailedForever(host, context, Apply(host, context, inFlight, Settled), afterwards);
    }
  }

  /** An inactive session's waiting call is denied. */
  lemma {:induction false} WaitingCallIsDenied<T>(host: Host<T>, context: Context, log: Log<T>, events: seq<Event>)
    requires NoneSettles(events) && !log.state.active && !log.state.flight.Idle? && !HasOutcome(log.state)
    ensures !HasOutcome(Run(host, context, log, events).state)
    decreases |events|
  {
    if events != [] {
      var next := Apply(host, context, log, events[0]);
      assert events[0] != Settled;
      assert !HasOutcome(next.state);
      WaitingCallIsDenied(host, context, next, events[1..]);
    }
  }

  /**
   * A call that arrives while another is in flight is refused and fails the session. The earlier
   * call still gets frames exactly when it had committed before the arrival: from its commit until
   * it returns, an overlapping call no longer takes its frames away.
   */
  lemma {:induction false} OverlapOutcome<T>(
    host: Host<T>, context: Context, log: Log<T>, chunk: Option<Bytes>, now: int, meanwhile: seq<Event>)
    requires log.state.active && !log.state.flight.Idle? && NoneSettles(meanwhile)
    ensures Ingest(host, context, log.state, chunk, now).1 == Rejected(ConcurrentIngest)
    ensures var later := Run(host, context, Apply(host, context, log, Arrives(chunk, now)), meanwhile);
            && !later.state.active
            && (HasOutcome(later.state) <==> HasOutcome(log.state))
            && (HasOutcome(log.state) ==> later.state.flight == log.state.flight)
  {
    var overlapped := Apply(host, context, log, Arrives(chunk, now));
    FailedForever(host, context, overlapped, meanwhile);
    OnlyCommitMoves(host, context, overlapped, meanwhile);
    if !HasOutcome(log.state) {
      WaitingCallIsDenied(host, context, overlapped, meanwhile);
    }
  }

  /** A host that reads every line as an authentic CAPABILITIES frame numbered one. */
  const ONE_FRAME_HOST: Host<int> := Host(
    (b: Bytes) => Some(1), (b: Bytes) => true, (f: int) => Capabilities, (f: int) => 1, (f: int) => true,
    (f: int) => 0, (f: int) => 9, (f: int, t: int) => true)

  const ONE_LINE: Bytes := [NEWLINE]

  lemma {:induction false} OneLineAdmitted()
    ensures Lines([] + ONE_LINE) == [ONE_LINE] && Remainder([] + ONE_LINE) == []
    ensures Admit(ONE_FRAME_HOST, [ONE_LINE], 1, false) == Ok([1])
  {
    assert [] + ONE_LINE == ONE_LINE;
    LinesAreUnique([ONE_LINE], []);
    ConcatOne(ONE_LINE);
    assert ONE_LINE + [] == ONE_LINE;
    var none: seq<Bytes> := [];
    assert [ONE_LINE][1..] == none;
    assert Admit(ONE_FRAME_HOST, none, 2, true) == Ok([]);
    assert AdmitLine(ONE_FRAME_HOST, ONE_LINE, 1, false) == Ok(1);
    assert [1] + [] == [1];
  }

  /** The gap is real: a committed batch is delivered although a second call failed the session. */
  lemma {:induction false} OverlapAfterCommitDelivers()
    ensures var context := Context(0, 10);
            var call := Arrives(Some(ONE_LINE), 5);
            var committed := Apply(ONE_FRAME_HOST, context, Apply(ONE_FRAME_HOST, context, Start(), call),
              LeaseEnded(Held(5), 5));
            var log := Apply(ONE_FRAME_HOST, context, Apply(ONE_FRAME_HOST, context, committed, call), Settled);
            !log.state.active && log.delivered == [1]
  {
    var host, context, call := ONE_FRAME_HOST, Context(0, 10), Arrives(Some(ONE_LINE), 5);
    OneLineAdmitted();
    var started := Apply(host, context, Start(), call);
    assert started.state.flight == AwaitingLease(Pending([ONE_LINE], [1], ONE_LINE, []));
    var committed := Apply(host, context, started, LeaseEnded(Held(5), 5));
    assert committed.state.flight == Settling(Ok([1]));
  }

  // ----- the framers agree -----

  /**
   * Whatever the chunks, a run that is still active has committed exactly the frames and kept
   * exactly the bytes that a line buffer fed any other chunking of the same stream yields.
   */
  lemma {:induction false} FramersAgree<T>(host: Host<T>, context: Context, events: seq<Event>, chunks: seq<Bytes>)
    requires var log := Run(host, context, Start(), events);
             && log.state.active && Concat(chunks) == log.input && PushAll(host.decode, [], chunks).Some?
    ensures var log := Run(host, context, Start(), events);
            && PushAll(host.decode, [], chunks) == Some((log.frames, log.state.buffer))
            && (BatchFrames(host.decode, log.input).Some? ==>
                  BatchFrames(host.decode, log.input) == Some(log.frames) && log.state.buffer == [])
  {
    var log := Run(host, context, Start(), events);
    EveryRun(host, context, events);
    PushAllIsCutting(host.decode, [], chunks);
    assert [] + Concat(chunks) == Concat(chunks);
    DecodePointwise(host.decode, log.lines, log.frames);
  }
}
