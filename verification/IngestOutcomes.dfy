/** Which frames an authenticated session commits, and when: the secret's verdict, the windows and the limits. */
module IngestOutcomes {
  import opened Outcomes
  import opened Texts
  import opened Framing
  import opened JsonlSession
  import opened JsonlSessionRuns

  // ----- every committed frame was authentic -----

  /** The frame was authentic when the secret was held, lies in the context's window, and outlives the commit. */
  ghost predicate Genuine<T>(host: Host<T>, context: Context, frame: T, observedAt: int, commitAt: int)
  {
    && host.authentic(frame, observedAt)
    && context.authenticatedAt <= host.issuedAt(frame) && host.expiresAt(frame) <= context.expiresAt
    && observedAt < context.expiresAt && commitAt < host.expiresAt(frame)
  }

  /** The m-th event is the end of the lease that committed the i-th frame, and found it genuine. */
  ghost predicate CommittedBy<T>(host: Host<T>, context: Context, events: seq<Event>, i: nat, m: nat, frame: T)
  {
    && m < |events| && events[m].LeaseEnded? && events[m].lease.Held?
    && |Run(host, context, Start(), events[..m]).frames| <= i < |Run(host, context, Start(), events[..m + 1]).frames|
    && Genuine(host, context, frame, events[m].lease.observedAt, events[m].commitAt)
  }

  lemma {:induction false} RunLast<T>(host: Host<T>, context: Context, log: Log<T>, events: seq<Event>, e: Event)
    ensures Run(host, context, log, events + [e]) == Apply(host, context, Run(host, context, log, events), e)
    decreases |events|
  {
    if events == [] {
      assert [e][1..] == [];
    } else {
      RunLast(host, context, Apply(host, context, log, events[0]), events[1..], e);
      assert (events + [e])[1..] == events[1..] + [e];
    }
  }

  /** Frames are only ever added, and only by a lease that finds them genuine. */
  lemma {:induction false} StepCommits<T>(host: Host<T>, context: Context, log: Log<T>, e: Event)
    ensures var t := Apply(host, context, log, e);
            && log.frames <= t.frames
            && (|log.frames| < |t.frames| ==> e.LeaseEnded? && e.lease.Held?)
            && (|log.frames| < |t.frames| && e.LeaseEnded? && e.lease.Held? ==>
                  forall i :: |log.frames| <= i < |t.frames| ==>
                    Genuine(host, context, t.frames[i], e.lease.observedAt, e.commitAt))
  {
    if e.LeaseEnded? && log.state.flight.AwaitingLease? {
      var p := log.state.flight.pending;
      if LeaseOutcome(host, context, log.state, p.frames, e.lease, e.commitAt).Ok? {
        forall i | 0 <= i < |p.frames| ensures Genuine(host, context, p.frames[i], e.lease.observedAt, e.commitAt) {
          assert WithinContext(host, context, p.frames[i]);
        }
      }
    }
  }

  lemma {:induction false} EarlierStays<T>(
    host: Host<T>, context: Context, events: seq<Event>, e: Event, i: nat, m: nat, frame: T)
    requires CommittedBy(host, context, events, i, m, frame)
    ensures CommittedBy(host, context, events + [e], i, m, frame)
  {
    assert (events + [e])[m] == events[m] && (events + [e])[..m] == events[..m];
    assert (events + [e])[..m + 1] == events[..m + 1];
  }

  /**
   * In every run, every committed frame was found authentic under the secret at the sample of the
   * very lease that committed it, before the context's expiry; it was issued no earlier than the
   * context was authenticated, expires no later than the context, and had not expired at the commit.
   */
  lemma {:induction false} EveryFrameIsGenuine<T>(host: Host<T>, context: Context, events: seq<Event>, i: nat)
    requires i < |Run(host, context, Start(), events).frames|
    ensures exists m: nat :: CommittedBy(host, context, events, i, m, Run(host, context, Start(), events).frames[i])
    decreases |events|
  {
    if events != [] {
      var last := |events| - 1;
      var before, e := events[..last], events[last];
      assert events == before + [e];
      var log := Run(host, context, Start(), before);
      RunLast(host, context, Start(), before, e);
      StepCommits(host, context, log, e);
      var frame := Run(host, context, Start(), events).frames[i];
      if i < |log.frames| {
        EveryFrameIsGenuine(host, context, before, i);
        var m: nat :| CommittedBy(host, context, before, i, m, frame);
        EarlierStays(host, context, before, e, i, m, frame);
      } else {
        assert events[..last + 1] == events;
        assert CommittedBy(host, context, events, i, last, frame);
      }
    }
  }

  // ----- when a batch is committed -----

  /** The chunk may be taken in: by its size, by what was taken in before, and in time. */
  predicate TakesIn<T>(log: Log<T>, context: Context, chunk: Bytes, now: int)
  {
    && 1 <= |chunk| <= 131_072 && |log.input| + |chunk| <= 8_388_608 && |log.state.buffer| + |chunk| <= 131_072
    && now < context.expiresAt
  }

  /** Buffer and chunk are at most 32 lines, with a rest that may still become one, within the session's frames. */
  predicate CutsWell<T>(log: Log<T>, chunk: Bytes)
  {
    var candidate := log.state.buffer + chunk;
    && |Lines(candidate)| <= 32 && |Remainder(candidate)| < 65_536
    && (Lines(candidate) != [] ==> |log.frames| + |Lines(candidate)| <= 256)
  }

  /** These are the frames of the lines, one by one, and they carry on the session. */
  ghost predicate AreFrames<T>(host: Host<T>, log: Log<T>, chunk: Bytes, frames: seq<T>)
  {
    var lines := Lines(log.state.buffer + chunk);
    && |frames| == |lines| && (forall i :: 0 <= i < |lines| ==> AllowsLine(host, lines[i], frames[i]))
    && CarriesOn(host, frames, |log.frames|)
  }

  lemma {:induction false} PreparedCases<T>(host: Host<T>, context: Context, log: Log<T>, chunk: Bytes, now: int)
    requires Consistent(host, log)
    ensures var lines := Lines(log.state.buffer + chunk);
            var rest := Remainder(log.state.buffer + chunk);
            var p := Prepare(host, context, log.state, Some(chunk), now);
            if !TakesIn(log, context, chunk, now) || !CutsWell(log, chunk) then p.Refused?
            else if lines == [] then p == Buffered(rest)
            else match Admit(host, lines, |log.frames| + 1, |log.frames| > 0)
                 case Denied(code) => p.Refused?
                 case Ok(frames) => p == Batch(Pending(lines, frames, chunk, rest))
  {
  }

  lemma {:induction false} PreparedExactly<T>(
    host: Host<T>, context: Context, log: Log<T>, chunk: Bytes, now: int, frames: seq<T>)
    requires Consistent(host, log)
    ensures var p := Prepare(host, context, log.state, Some(chunk), now);
            p.Batch? && p.pending.frames == frames <==>
            TakesIn(log, context, chunk, now) && CutsWell(log, chunk) && AreFrames(host, log, chunk, frames) &&
              frames != []
    ensures Prepare(host, context, log.state, Some(chunk), now).Batch? ==>
            Prepare(host, context, log.state, Some(chunk), now).pending.chunk == chunk
    ensures Prepare(host, context, log.state, Some(chunk), now).Buffered? <==>
            TakesIn(log, context, chunk, now) && CutsWell(log, chunk) && Lines(log.state.buffer + chunk) == []
  {
    PreparedCases(host, context, log, chunk, now);
    AdmittedExactly(host, Lines(log.state.buffer + chunk), |log.frames|, frames);
  }

  /** The lease holds the secret in time, and every frame is genuine. */
  ghost predicate LeaseFinds<T>(host: Host<T>, context: Context, lease: Lease, commitAt: int, frames: seq<T>)
  {
    && lease.Held? && lease.observedAt < context.expiresAt && commitAt < context.expiresAt
    && forall i :: 0 <= i < |frames| ==> Genuine(host, context, frames[i], lease.observedAt, commitAt)
  }

  lemma {:induction false} LeaseExactly<T>(
    host: Host<T>, context: Context, s: State<T>, frames: seq<T>, lease: Lease, commitAt: int)
    requires s.active
    ensures LeaseOutcome(host, context, s, frames, lease, commitAt).Ok? <==>
            LeaseFinds(host, context, lease, commitAt, frames)
    ensures LeaseOutcome(host, context, s, frames, lease, commitAt).Ok? ==>
            LeaseOutcome(host, context, s, frames, lease, commitAt).value == frames
  {
    if LeaseFinds(host, context, lease, commitAt, frames) {
      assert forall i :: 0 <= i < |frames| ==> Genuine(host, context, frames[i], lease.observedAt, commitAt);
    }
    if lease.Held? && Verified(host, context, frames, lease.observedAt) {
      assert forall i :: 0 <= i < |frames| ==> WithinContext(host, context, frames[i]);
    }
  }

  lemma {:induction false} TwoSteps<T>(host: Host<T>, context: Context, log: Log<T>, a: Event, b: Event)
    ensures Run(host, context, log, [a, b]) == Apply(host, context, Apply(host, context, log, a), b)
  {
    var none: seq<Event> := [];
    assert [a, b][1..] == [b] && [b][1..] == none;
    assert Run(host, context, Apply(host, context, log, a), [b]) == Apply(host, context, Apply(host, context, log, a),
      b);
  }

  /**
   * An active session that is waiting for nothing, after any run: a chunk and the end of its lease
   * commit these frames exactly when the chunk may be taken in, cuts well into the frames' lines, the
   * frames carry on the session, and the lease finds them genuine. Otherwise nothing is committed.
   */
  lemma {:induction false} CommitsExactly<T>(
    host: Host<T>, context: Context, past: seq<Event>, chunk: Bytes, now: int, lease: Lease, commitAt: int,
    frames: seq<T>)
    requires var log := Run(host, context, Start(), past); log.state.active && log.state.flight.Idle?
    requires frames != []
    ensures var log := Run(host, context, Start(), past);
            var later := Run(host, context, log, [Arrives(Some(chunk), now), LeaseEnded(lease, commitAt)]);
            && (later.frames == log.frames + frames <==>
                TakesIn(log, context, chunk, now) && CutsWell(log, chunk) && AreFrames(host, log, chunk, frames) &&
                LeaseFinds(host, context, lease, commitAt, frames))
            && (later.frames == log.frames + frames ==>
               later.state.flight == Settling(Ok(frames)) &&
               later.input == log.input + chunk)
  {
    EveryRun(host, context, past);
    var log := Run(host, context, Start(), past);
    TwoSteps(host, context, log, Arrives(Some(chunk), now), LeaseEnded(lease, commitAt));
    PreparedExactly(host, context, log, chunk, now, frames);
    var started := Apply(host, context, log, Arrives(Some(chunk), now));
    assert started.frames == log.frames;
    if started.state.flight.AwaitingLease? {
      var p := started.state.flight.pending;
      PreparedExactly(host, context, log, chunk, now, p.frames);
      LeaseExactly(host, context, started.state, p.frames, lease, commitAt);
      if log.frames + p.frames == log.frames + frames {
        assert p.frames == (log.frames + p.frames)[|log.frames|..] == (log.frames + frames)[|log.frames|..] == frames;
      }
    }
  }

  /** A chunk without a newline is buffered exactly when it may be taken in and the line may still be one. */
  lemma {:induction false} BuffersExactly<T>(host: Host<T>, context: Context, past: seq<Event>, chunk: Bytes, now: int)
    requires var log := Run(host, context, Start(), past); log.state.active && log.state.flight.Idle?
    ensures var log := Run(host, context, Start(), past);
            var later := Run(host, context, log, [Arrives(Some(chunk), now), Settled]);
            if TakesIn(log, context, chunk, now) && NEWLINE !in chunk && |log.state.buffer + chunk| < 65_536
            then later.state.active && later.input == log.input + chunk &&
              later.state.buffer == log.state.buffer + chunk
            else later.input == log.input
  {
    EveryRun(host, context, past);
    var log := Run(host, context, Start(), past);
    TwoSteps(host, context, log, Arrives(Some(chunk), now), Settled);
    PreparedExactly(host, context, log, chunk, now, []);
    NoLines(log.state.buffer + chunk);
    assert NEWLINE !in log.state.buffer + chunk <==> NEWLINE !in chunk;
  }

  lemma {:induction false} NoLines(b: Bytes)
    ensures Lines(b) == [] <==> NEWLINE !in b
    ensures Lines(b) == [] ==> Remainder(b) == b
  {
    LinesConcat(b);
    LinesShape(b);
    FirstNewlineIsFirst(b);
    assert Lines(b) == [] ==> [] + Remainder(b) == Remainder(b);
  }
}

/** The same over real bridge frames: canonical JSON lines and authenticated envelopes. */
module BridgeOutcomes {
  import opened Outcomes
  import opened Texts
  import opened Json
  import opened BridgeCodec
  import opened Framing
  import opened JsonlSession
  import opened JsonlSessionRuns
  import opened BridgeSession
  import opened IngestOutcomes

  /** The envelope is authentic at this sample, lies in the context's window, and outlives the commit. */
  ghost predicate GenuineEnvelope(r: SessionRules, context: Context, v: Json, observedAt: int, commitAt: int)
  {
    && r.authentic(v, observedAt)
    && context.authenticatedAt <= InstantOf(r.rules, v, ISSUED_AT) &&
       InstantOf(r.rules, v, EXPIRES_AT) <= context.expiresAt
    && observedAt < context.expiresAt && commitAt < InstantOf(r.rules, v, EXPIRES_AT)
  }

  lemma {:induction false} GenuineAtBridge(r: SessionRules, context: Context, v: Json, observedAt: int, commitAt: int)
    ensures Genuine(BridgeHost(r), context, v, observedAt, commitAt) <==>
            GenuineEnvelope(r, context, v, observedAt, commitAt)
  {
    var host := BridgeHost(r);
    assert host.authentic(v, observedAt) == r.authentic(v, observedAt);
    assert host.issuedAt(v) == InstantOf(r.rules, v, ISSUED_AT) &&
      host.expiresAt(v) == InstantOf(r.rules, v, EXPIRES_AT);
  }

  /** In every run, every committed envelope was genuine at the lease that committed it. */
  lemma {:induction false} EveryEnvelopeIsGenuine(r: SessionRules, context: Context, events: seq<Event>, i: nat)
    requires i < |Run(BridgeHost(r), context, Start(), events).frames|
    ensures exists m: nat ::
              && m < |events| && events[m].LeaseEnded? && events[m].lease.Held?
              && GenuineEnvelope(r, context, Run(BridgeHost(r), context, Start(), events).frames[i],
                   events[m].lease.observedAt, events[m].commitAt)
  {
    var host := BridgeHost(r);
    EveryFrameIsGenuine(host, context, events, i);
    var frame := Run(host, context, Start(), events).frames[i];
    var m: nat :| CommittedBy(host, context, events, i, m, frame);
    GenuineAtBridge(r, context, frame, events[m].lease.observedAt, events[m].commitAt);
  }

  /**
   * A chunk and the end of its lease commit these envelopes exactly when the chunk may be taken in,
   * cuts into their encodings one by one, they carry on the session, and all of them are genuine.
   */
  lemma {:induction false} EnvelopesCommitExactly(
    r: SessionRules, context: Context, past: seq<Event>, chunk: Bytes, now: int, observedAt: int, commitAt: int,
    frames: seq<Json>)
    requires var log := Run(BridgeHost(r), context, Start(), past); log.state.active && log.state.flight.Idle?
    requires frames != []
    ensures var log := Run(BridgeHost(r), context, Start(), past);
            var lines := Lines(log.state.buffer + chunk);
            Run(BridgeHost(r), context, log,
              [Arrives(Some(chunk), now), LeaseEnded(Held(observedAt), commitAt)]).frames ==
            log.frames + frames <==>
            && TakesIn(log, context, chunk, now) && CutsWell(log, chunk)
            && |frames| == |lines| && (forall i :: 0 <= i < |lines| ==> IsFrame(r, lines[i], frames[i]))
            && CarriesOn(BridgeHost(r), frames, |log.frames|)
            && observedAt < context.expiresAt && commitAt < context.expiresAt
            && forall i :: 0 <= i < |frames| ==> GenuineEnvelope(r, context, frames[i], observedAt, commitAt)
  {
    var host := BridgeHost(r);
    var log := Run(host, context, Start(), past);
    var lines := Lines(log.state.buffer + chunk);
    CommitsExactly(host, context, past, chunk, now, Held(observedAt), commitAt, frames);
    if |lines| == |frames| {
      forall i | 0 <= i < |frames| ensures AllowsLine(host, lines[i], frames[i]) <==> IsFrame(r, lines[i], frames[i]) {
        FrameExactly(r, lines[i], frames[i]);
      }
    }
    forall i | 0 <= i < |frames|
      ensures Genuine(host, context, frames[i], observedAt, commitAt) <==>
              GenuineEnvelope(r, context, frames[i], observedAt, commitAt)
    {
      GenuineAtBridge(r, context, frames[i], observedAt, commitAt);
    }
  }
}
