/**
 * The authenticated runtime session: chunks come in, lines are cut and checked, a secret lease is
 * awaited, and a whole batch of frames is committed or none of it is. A call that is suspended
 * stays in flight while other calls may arrive.
 */
module JsonlSession {
  import opened Outcomes
  import opened Texts
  import opened Framing

  const MAX_SESSION_FRAMES: nat := 256
  const MAX_INGEST_BYTES: nat := 131_072
  const MAX_SESSION_BYTES: nat := 8_388_608

  datatype Denial =
    | InvalidIngest | SessionExpired | SessionLimit | FrameInvalid | AuthenticationDenied
    | SequenceMismatch | ProtocolState | ForbiddenMessage | ConcurrentIngest | Terminal

  datatype Result<+T> = Ok(value: T) | Denied(code: Denial)

  /** How the session reads a frame's type. */
  datatype Kind = Capabilities | OtherRuntimeMessage | NotFromRuntime

  /** Everything the session asks about lines and frames. */
  datatype Host<!T> = Host(
    decode: Bytes -> Option<T>,
    preflight: Bytes -> bool,
    kind: T -> Kind,
    sequence: T -> int,
    payloadAllowed: T -> bool,
    issuedAt: T -> int,
    expiresAt: T -> int,
    authentic: (T, int) -> bool)

  datatype Context = Context(authenticatedAt: int, expiresAt: int)

  // ----- one batch -----

  function AdmitLine<T>(host: Host<T>, line: Bytes, expected: int, capabilities: bool): (r: Result<T>)
  {
    if !host.preflight(line) then Denied(FrameInvalid)
    else
      match host.decode(line)
      case None => Denied(FrameInvalid)
      case Some(frame) =>
        if host.kind(frame) == NotFromRuntime then Denied(ForbiddenMessage)
        else if host.sequence(frame) != expected then Denied(SequenceMismatch)
        else if capabilities == (host.kind(frame) == Capabilities) then Denied(ProtocolState)
        else if !host.payloadAllowed(frame) then Denied(FrameInvalid)
        else Ok(frame)
  }

  function Admit<T>(host: Host<T>, lines: seq<Bytes>, expected: int, capabilities: bool): (r: Result<seq<T>>)
  {
    if lines == [] then Ok([])
    else
      match AdmitLine(host, lines[0], expected, capabilities)
      case Denied(code) => Denied(code)
      case Ok(frame) =>
        match Admit(host, lines[1..], expected + 1, true)
        case Denied(code) => Denied(code)
        case Ok(frames) => Ok([frame] + frames)
  }

  /** Frames that carry on a session of `before` accepted frames. */
  ghost predicate CarriesOn<T>(host: Host<T>, frames: seq<T>, before: nat)
  {
    forall i :: 0 <= i < |frames| ==>
      && host.sequence(frames[i]) == before + i + 1
      && host.kind(frames[i]) != NotFromRuntime
      && (host.kind(frames[i]) == Capabilities <==> before + i == 0)
  }

  ghost predicate Decodes<T>(host: Host<T>, lines: seq<Bytes>, frames: seq<T>)
  {
    |lines| == |frames| && forall i :: 0 <= i < |lines| ==> host.decode(lines[i]) == Some(frames[i])
  }

  lemma {:induction false} AdmittedFrames<T>(host: Host<T>, lines: seq<Bytes>, before: nat)
    requires Admit(host, lines, before + 1, before > 0).Ok?
    ensures var frames := Admit(host, lines, before + 1, before > 0).value;
            Decodes(host, lines, frames) && CarriesOn(host, frames, before)
  {
    if lines != [] {
      AdmittedFrames(host, lines[1..], before + 1);
      var frame := AdmitLine(host, lines[0], before + 1, before > 0).value;
      var frames := Admit(host, lines[1..], before + 2, true).value;
      assert forall i :: 1 <= i < |lines| ==> lines[i] == lines[1..][i - 1];
      assert forall i :: 1 <= i < |lines| ==> ([frame] + frames)[i] == frames[i - 1];
    }
  }

  /** Neither the early check nor the decoder nor the payload check has anything against the line as this frame. */
  ghost predicate AllowsLine<T>(host: Host<T>, line: Bytes, frame: T)
  {
    host.preflight(line) && host.decode(line) == Some(frame) && host.payloadAllowed(frame)
  }

  lemma {:induction false} CarriesOnFirst<T>(host: Host<T>, frames: seq<T>, before: nat)
    requires frames != []
    ensures CarriesOn(host, frames, before) <==>
            CarriesOn(host, frames[..1], before) &&
            CarriesOn(host, frames[1..], before + 1)
  {
    var rest := frames[1..];
    assert forall i :: 1 <= i < |frames| ==> frames[i] == rest[i - 1];
  }

  /** A batch is admitted as these frames exactly when each line is allowed and the frames carry on the session. */
  lemma {:induction false} AdmittedExactly<T>(host: Host<T>, lines: seq<Bytes>, before: nat, frames: seq<T>)
    ensures Admit(host, lines, before + 1, before > 0) == Ok(frames) <==>
            && |lines| == |frames| && (forall i :: 0 <= i < |frames| ==> AllowsLine(host, lines[i], frames[i]))
            && CarriesOn(host, frames, before)
  {
    if lines != [] && frames != [] {
      var tail, rest := lines[1..], frames[1..];
      AdmittedExactly(host, tail, before + 1, rest);
      CarriesOnFirst(host, frames, before);
      assert frames == [frames[0]] + rest;
      assert forall i :: 1 <= i < |frames| && i < |lines| ==> frames[i] == rest[i - 1] && lines[i] == tail[i - 1];
      assert forall i :: 0 <= i < |rest| && i < |tail| ==> rest[i] == frames[i + 1] && tail[i] == lines[i + 1];
    }
  }

  /** What a call holds while it waits for its lease. */
  datatype Pending<T> = Pending(lines: seq<Bytes>, frames: seq<T>, chunk: Bytes, remainder: Bytes)

  datatype Prepared<T> = Refused(code: Denial) | Buffered(remainder: Bytes) | Batch(pending: Pending<T>)

  /** The call in flight, if any: waiting for its lease, or about to hand over its outcome. */
  datatype Flight<T> = Idle | AwaitingLease(pending: Pending<T>) | Settling(result: Result<seq<T>>)

  datatype State<T> = State(
    active: bool,
    buffer: Bytes,
    nextSequence: int,
    acceptedFrames: nat,
    ingestedBytes: nat,
    capabilitiesAccepted: bool,
    flight: Flight<T>)

  function InitialState<T>(): State<T> { State(true, [], 1, 0, 0, false, Idle) }

  function Prepare<T>(host: Host<T>, context: Context, s: State<T>, chunk: Option<Bytes>, now: int): (r: Prepared<T>)
  {
    match chunk
    case None => Refused(InvalidIngest)
    case Some(bytes) =>
      if bytes == [] then Refused(InvalidIngest)
      else if |bytes| > MAX_INGEST_BYTES || s.ingestedBytes + |bytes| > MAX_SESSION_BYTES ||
              |bytes| > MAX_BUFFER_BYTES - |s.buffer| then Refused(SessionLimit)
      else if now >= context.expiresAt then Refused(SessionExpired)
      else PrepareLines(host, s, bytes, Lines(s.buffer + bytes), Remainder(s.buffer + bytes))
  }

  function PrepareLines<T>(
    host: Host<T>, s: State<T>, bytes: Bytes, lines: seq<Bytes>, remainder: Bytes): (r: Prepared<T>)
  {
    if |lines| > MAX_BATCH_FRAMES || |remainder| >= MAX_LINE_BYTES then Refused(SessionLimit)
    else if lines == [] then Buffered(remainder)
    else if s.acceptedFrames + |lines| > MAX_SESSION_FRAMES then Refused(SessionLimit)
    else
      match Admit(host, lines, s.nextSequence, s.capabilitiesAccepted)
      case Denied(code) => Refused(code)
      case Ok(frames) => Batch(Pending(lines, frames, bytes, remainder))
  }

  // ----- steps -----

  /** What a call learns at once: it is refused on the spot, or it is the call in flight. */
  datatype Reply = Rejected(code: Denial) | Started

  /** A call up to its first suspension. */
  function Ingest<T>(
    host: Host<T>, context: Context, s: State<T>, chunk: Option<Bytes>, now: int): (r: (State<T>, Reply))
  {
    if !s.active then (s, Rejected(Terminal))
    else if !s.flight.Idle? then (s.(active := false, buffer := []), Rejected(ConcurrentIngest))
    else
      match Prepare(host, context, s, chunk, now)
      case Refused(code) => (s.(flight := Settling(Denied(code))), Started)
      case Buffered(remainder) =>
        (s.(buffer := remainder, ingestedBytes := s.ingestedBytes + |chunk.value|, flight := Settling(Ok([]))), Started)
      case Batch(pending) => (s.(flight := AwaitingLease(pending)), Started)
  }

  /** How the secret lease ends: refused, failed otherwise, over without a verification, or held. */
  datatype Lease = LeaseRefused | LeaseBroken | NotVerified | Held(observedAt: int)

  ghost predicate WithinContext<T>(host: Host<T>, context: Context, frame: T)
  {
    context.authenticatedAt <= host.issuedAt(frame) && host.expiresAt(frame) <= context.expiresAt
  }

  /** Every frame lies inside the context and is authentic when the secret is held. */
  ghost predicate Verified<T>(host: Host<T>, context: Context, frames: seq<T>, observedAt: int)
  {
    forall i :: 0 <= i < |frames| ==> WithinContext(host, context, frames[i]) && host.authentic(frames[i], observedAt)
  }

  ghost predicate Unexpired<T>(host: Host<T>, frames: seq<T>, at: int)
  {
    forall i :: 0 <= i < |frames| ==> at < host.expiresAt(frames[i])
  }

  ghost function LeaseOutcome<T>(
    host: Host<T>, context: Context, s: State<T>, frames: seq<T>, lease: Lease, commitAt: int): (r: Result<seq<T>>)
  {
    match lease
    case LeaseRefused => Denied(AuthenticationDenied)
    case LeaseBroken => Denied(FrameInvalid)
    case NotVerified => Denied(AuthenticationDenied)
    case Held(observedAt) =>
      if observedAt >= context.expiresAt then Denied(SessionExpired)
      else if !Verified(host, context, frames, observedAt) then Denied(FrameInvalid)
      else if !s.active then Denied(Terminal)
      else if commitAt >= context.expiresAt then Denied(SessionExpired)
      else if !Unexpired(host, frames, commitAt) then Denied(FrameInvalid)
      else Ok(frames)
  }

  /** The lease ends: the batch is committed, or nothing changes but the outcome to come. */
  ghost function LeaseEnds<T>(host: Host<T>, context: Context, s: State<T>, lease: Lease, commitAt: int): (r: State<T>)
    requires s.flight.AwaitingLease?
  {
    var p := s.flight.pending;
    match LeaseOutcome(host, context, s, p.frames, lease, commitAt)
    case Denied(code) => s.(flight := Settling(Denied(code)))
    case Ok(frames) =>
      s.(buffer := p.remainder,
         ingestedBytes := s.ingestedBytes + |p.chunk|,
         acceptedFrames := s.acceptedFrames + |frames|,
         nextSequence := s.nextSequence + |frames|,
         capabilitiesAccepted := true,
         flight := Settling(Ok(frames)))
  }

  /** The call in flight returns or throws. */
  function Settle<T>(s: State<T>): (r: State<T>)
    requires s.flight.Settling?
  {
    if s.flight.result.Ok? then s.(flight := Idle) else s.(active := false, buffer := [], flight := Idle)
  }

  // ----- the session object -----

  class Session<T(==)> {
    var active: bool
    var buffer: Bytes
    var nextSequence: int
    var acceptedFrames: nat
    var ingestedBytes: nat
    var capabilitiesAccepted: bool
    var ingesting: bool
    /** The suspended call, as the runtime keeps it. */
    var flight: Flight<T>

    ghost predicate Valid()
      reads this
    {
      ingesting == !flight.Idle?
    }

    ghost function Value(): State<T>
      reads this
    {
      State(active, buffer, nextSequence, acceptedFrames, ingestedBytes, capabilitiesAccepted, flight)
    }

    constructor ()
      ensures Valid() && Value() == InitialState()
    {
      active, buffer, nextSequence, acceptedFrames, ingestedBytes := true, [], 1, 0, 0;
      capabilitiesAccepted, ingesting, flight := false, false, Idle;
    }

    /** Cuts the buffered bytes and the chunk into lines, refusing more than a batch of them. */
    method Cut(candidate: Bytes) returns (lines: seq<Bytes>, remainder: Bytes, tooMany: bool)
      ensures tooMany <==> |Lines(candidate)| > MAX_BATCH_FRAMES
      ensures !tooMany ==> lines == Lines(candidate) && remainder == Remainder(candidate)
    {
      lines := [];
      remainder := candidate;
      while FirstNewline(remainder) < |remainder|
        invariant |lines| <= MAX_BATCH_FRAMES
        invariant Lines(candidate) == lines + Lines(remainder)
        invariant Remainder(candidate) == Remainder(remainder)
        decreases |remainder|
      {
        var n := FirstNewline(remainder) + 1;
        LinesFirst(remainder);
        assert lines + ([remainder[..n]] + Lines(remainder[n..])) == lines + [remainder[..n]] + Lines(remainder[n..]);
        lines := lines + [remainder[..n]];
        remainder := remainder[n..];
        if |lines| > MAX_BATCH_FRAMES {
          return lines, remainder, true;
        }
      }
      return lines, remainder, false;
    }

    /** Checks the lines one by one, expecting consecutive sequence numbers. */
    method AdmitAll(host: Host<T>, lines: seq<Bytes>) returns (r: Result<seq<T>>)
      ensures r == Admit(host, lines, nextSequence, capabilitiesAccepted)
    {
      var frames: seq<T> := [];
      var expected := nextSequence;
      var capabilities := capabilitiesAccepted;
      var i := 0;
      assert lines[0..] == lines;
      FollowingNone(Admit(host, lines, nextSequence, capabilitiesAccepted));
      while i < |lines|
        invariant 0 <= i <= |lines|
        invariant Admit(host, lines, nextSequence, capabilitiesAccepted) ==
                  Following(frames, Admit(host, lines[i..], expected, capabilities))
      {
        assert lines[i..][0] == lines[i] && lines[i..][1..] == lines[i + 1..];
        var one := AdmitLine(host, lines[i], expected, capabilities);
        if one.Denied? {
          return Denied(one.code);
        }
        FollowingOne(frames, one.value, Admit(host, lines[i + 1..], expected + 1, true));
        frames := frames + [one.value];
        expected := expected + 1;
        capabilities := true;
        i := i + 1;
      }
      assert frames + [] == frames;
      return Ok(frames);
    }

    /** Everything a call does before it suspends, except keeping the outcome. */
    method PrepareIngest(host: Host<T>, context: Context, chunk: Option<Bytes>, now: int) returns (r: Prepared<T>)
      ensures r == Prepare(host, context, Value(), chunk, now)
    {
      if chunk.None? || chunk.value == [] {
        return Refused(InvalidIngest);
      }
      var bytes := chunk.value;
      if |bytes| > MAX_INGEST_BYTES || ingestedBytes + |bytes| > MAX_SESSION_BYTES ||
         |bytes| > MAX_BUFFER_BYTES - |buffer|
      {
        return Refused(SessionLimit);
      }
      if now >= context.expiresAt {
        return Refused(SessionExpired);
      }
      var lines, remainder, tooMany := Cut(buffer + bytes);
      if tooMany || |remainder| >= MAX_LINE_BYTES {
        return Refused(SessionLimit);
      }
      if lines == [] {
        return Buffered(remainder);
      }
      if acceptedFrames + |lines| > MAX_SESSION_FRAMES {
        return Refused(SessionLimit);
      }
      var admitted := AdmitAll(host, lines);
      if admitted.Denied? {
        return Refused(admitted.code);
      }
      return Batch(Pending(lines, admitted.value, bytes, remainder));
    }

    method StartIngest(host: Host<T>, context: Context, chunk: Option<Bytes>, now: int) returns (reply: Reply)
      requires Valid()
      modifies this
      ensures Valid() && (Value(), reply) == Ingest(host, context, old(Value()), chunk, now)
    {
      if !active {
        return Rejected(Terminal);
      }
      if ingesting {
        active := false;
        buffer := [];
        return Rejected(ConcurrentIngest);
      }
      var prepared := PrepareIngest(host, context, chunk, now);
      ingesting := true;
      match prepared {
        case Refused(code) => flight := Settling(Denied(code));
        case Buffered(remainder) =>
          buffer := remainder;
          ingestedBytes := ingestedBytes + |chunk.value|;
          flight := Settling(Ok([]));
        case Batch(pending) => flight := AwaitingLease(pending);
      }
      return Started;
    }

    /** The consumer of the lease: every frame is checked while the secret is held. */
    method VerifyFrames(host: Host<T>, context: Context, frames: seq<T>, observedAt: int) returns (ok: bool)
      ensures ok <==> Verified(host, context, frames, observedAt)
    {
      var i := 0;
      while i < |frames|
        invariant 0 <= i <= |frames|
        invariant forall k :: 0 <= k < i ==>
                  WithinContext(host, context, frames[k]) &&
                  host.authentic(frames[k], observedAt)
      {
        if host.issuedAt(frames[i]) < context.authenticatedAt || host.expiresAt(frames[i]) > context.expiresAt ||
           !host.authentic(frames[i], observedAt)
        {
          return false;
        }
        i := i + 1;
      }
      return true;
    }

    method AllUnexpired(host: Host<T>, frames: seq<T>, at: int) returns (ok: bool)
      ensures ok <==> Unexpired(host, frames, at)
    {
      var i := 0;
      while i < |frames|
        invariant 0 <= i <= |frames|
        invariant forall k :: 0 <= k < i ==> at < host.expiresAt(frames[k])
      {
        if at >= host.expiresAt(frames[i]) {
          return false;
        }
        i := i + 1;
      }
      return true;
    }

    method EndLease(host: Host<T>, context: Context, lease: Lease, commitAt: int)
      requires Valid() && flight.AwaitingLease?
      modifies this
      ensures Valid() && Value() == LeaseEnds(host, context, old(Value()), lease, commitAt)
    {
      var pending := flight.pending;
      match lease {
        case LeaseRefused => flight := Settling(Denied(AuthenticationDenied));
        case LeaseBroken => flight := Settling(Denied(FrameInvalid));
        case NotVerified => flight := Settling(Denied(AuthenticationDenied));
        case Held(observedAt) =>
          if observedAt >= context.expiresAt {
            flight := Settling(Denied(SessionExpired));
            return;
          }
          var verified := VerifyFrames(host, context, pending.frames, observedAt);
          if !verified {
            flight := Settling(Denied(FrameInvalid));
            return;
          }
          if !active {
            flight := Settling(Denied(Terminal));
            return;
          }
          if commitAt >= context.expiresAt {
            flight := Settling(Denied(SessionExpired));
            return;
          }
          var unexpired := AllUnexpired(host, pending.frames, commitAt);
          if !unexpired {
            flight := Settling(Denied(FrameInvalid));
            return;
          }
          buffer := pending.remainder;
          ingestedBytes := ingestedBytes + |pending.chunk|;
          acceptedFrames := acceptedFrames + |pending.frames|;
          nextSequence := nextSequence + |pending.frames|;
          capabilitiesAccepted := true;
          flight := Settling(Ok(pending.frames));
      }
    }

    /** The awaiting caller gets its frames or the denial. */
    method Finish() returns (result: Result<seq<T>>)
      requires Valid() && flight.Settling?
      modifies this
      ensures Valid() && result == old(flight.result) && Value() == Settle(old(Value()))
    {
      result := flight.result;
      if result.Denied? {
        active := false;
        buffer := [];
      }
      flight := Idle;
      ingesting := false;
    }
  }

  function Following<T>(frames: seq<T>, r: Result<seq<T>>): Result<seq<T>>
  {
    match r
    case Denied(code) => Denied(code)
    case Ok(rest) => Ok(frames + rest)
  }

  lemma {:induction false} FollowingNone<T>(r: Result<seq<T>>)
    ensures Following([], r) == r
  {
    if r.Ok? {
      assert [] + r.value == r.value;
    }
  }

  lemma {:induction false} FollowingOne<T>(frames: seq<T>, frame: T, r: Result<seq<T>>)
    ensures Following(frames, Following([frame], r)) == Following(frames + [frame], r)
  {
    if r.Ok? {
      assert frames + ([frame] + r.value) == frames + [frame] + r.value;
    }
  }
}
