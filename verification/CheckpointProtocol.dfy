/** Signed snapshots of module authorizations, their roots, and the checkpoints they leave. */
module ModuleAuthorization {
  import opened Outcomes

  type Hash = string

  datatype ModuleKind = Client | Listener

  datatype Request = Request(moduleKind: ModuleKind, canonicalModulePath: string, socketPath: string)

  /** `facts` stands for the module's and the socket directory's owner, mode, size and digest. */
  datatype Authorization = Authorization(
    request: Request,
    authorizationId: string,
    authorizationVersion: nat,
    requestHash: Hash,
    validFrom: int,
    validUntil: int,
    facts: string)

  /** A snapshot without its signature: what is hashed and signed. */
  datatype Payload = Payload(
    snapshotId: string,
    snapshotVersion: nat,
    signerKeyId: string,
    supervisorInstanceId: string,
    issuedAt: int,
    validUntil: int,
    previousSnapshotHash: Option<Hash>,
    authorizations: seq<Authorization>)

  datatype Snapshot = Snapshot(payload: Payload, signature: string)

  datatype Root = Root(
    publicKey: string, minimumSnapshotVersion: nat, validFrom: int, validUntil: int, revokedAt: Option<int>)

  /** One supervisor instance, its verification roots by signer key, and the hash and signature functions. */
  datatype Config = Config(
    supervisorInstanceId: string,
    roots: map<string, Root>,
    payloadHash: Payload -> Hash,
    authorizationHash: Authorization -> Hash,
    requestHash: Request -> Hash,
    verify: (string, Payload, string) -> bool)

  const MAX_VERSION: nat := 1_000_000
  const MAX_SNAPSHOT_LIFETIME_MS: int := 300_000

  predicate IsVersion(n: nat) { 1 <= n <= MAX_VERSION }

  /** At most one authorization per module kind, the client's first. */
  predicate WellFormedPayload(p: Payload)
  {
    && IsVersion(p.snapshotVersion)
    && |p.authorizations| <= 2
    && (forall i :: 0 <= i < |p.authorizations| ==> IsVersion(p.authorizations[i].authorizationVersion))
    && (|p.authorizations| == 2 ==>
          p.authorizations[0].request.moduleKind == Client && p.authorizations[1].request.moduleKind == Listener)
  }

  predicate InsideSnapshot(p: Payload, a: Authorization) { p.issuedAt <= a.validFrom && a.validUntil <= p.validUntil }

  /** The authenticator's verdict on a snapshot at clock time `now`. */
  predicate Authentic(config: Config, s: Snapshot, now: int)
  {
    var p := s.payload;
    && WellFormedPayload(p)
    && p.signerKeyId in config.roots && p.supervisorInstanceId == config.supervisorInstanceId
    && var root := config.roots[p.signerKeyId];
    && root.minimumSnapshotVersion <= p.snapshotVersion
    && p.issuedAt <= now < p.validUntil
    && p.issuedAt < p.validUntil <= p.issuedAt + MAX_SNAPSHOT_LIFETIME_MS
    && root.validFrom <= p.issuedAt && p.validUntil <= root.validUntil
    && root.validFrom <= now < root.validUntil
    && (root.revokedAt.Some? ==> now < root.revokedAt.value && p.validUntil <= root.revokedAt.value)
    && config.verify(root.publicKey, p, s.signature)
    && forall i :: 0 <= i < |p.authorizations| ==> InsideSnapshot(p, p.authorizations[i])
  }

  // ----- checkpoints -----

  /** What a checkpoint keeps of one kind's authorization. */
  datatype Mark = Mark(id: string, version: nat, hash: Hash)

  datatype Checkpoint = Checkpoint(
    supervisorInstanceId: string,
    signerKeyId: string,
    snapshotId: string,
    snapshotVersion: nat,
    snapshotHash: Hash,
    client: Option<Mark>,
    listener: Option<Mark>)

  function MarkOf(c: Checkpoint, kind: ModuleKind): Option<Mark>
  {
    if kind == Client then c.client else c.listener
  }

  /** The first authorization of a kind. */
  function MarkFor(config: Config, authorizations: seq<Authorization>, kind: ModuleKind): (r: Option<Mark>)
  {
    if authorizations == [] then None
    else if authorizations[0].request.moduleKind == kind then
      var a := authorizations[0];
      Some(Mark(a.authorizationId, a.authorizationVersion, config.authorizationHash(a)))
    else MarkFor(config, authorizations[1..], kind)
  }

  function NextCheckpoint(config: Config, p: Payload): Checkpoint
  {
    Checkpoint(p.supervisorInstanceId, p.signerKeyId, p.snapshotId, p.snapshotVersion, config.payloadHash(p),
               MarkFor(config, p.authorizations, Client), MarkFor(config, p.authorizations, Listener))
  }

  /** A kind that keeps its authorization id may not go back, nor change content at one version. */
  predicate MarkAllowed(current: Option<Mark>, next: Option<Mark>)
  {
    current.Some? && next.Some? && current.value.id == next.value.id ==>
      current.value.version < next.value.version ||
      (current.value.version == next.value.version && current.value.hash == next.value.hash)
  }

  datatype Verdict = Deny | AlreadyInstalled | Install

  /** What one pass of the checkpoint loop decides from the stored checkpoint. */
  function Judge(config: Config, p: Payload, current: Option<Checkpoint>): (v: Verdict)
  {
    var next := NextCheckpoint(config, p);
    match current
    case None => if p.previousSnapshotHash.None? then Install else Deny
    case Some(c) =>
      if c.supervisorInstanceId != p.supervisorInstanceId || p.snapshotVersion < c.snapshotVersion then Deny
      else if p.snapshotVersion == c.snapshotVersion then (if c == next then AlreadyInstalled else Deny)
      else if p.snapshotVersion != c.snapshotVersion + 1 || p.previousSnapshotHash != Some(c.snapshotHash) then Deny
      else if !MarkAllowed(c.client, next.client) || !MarkAllowed(c.listener, next.listener) then Deny
      else Install
  }

  /** The grant a snapshot holds for a request. */
  function GrantFor(config: Config, authorizations: seq<Authorization>, request: Request): (r: Option<Authorization>)
    ensures r.Some? ==>
            r.value in authorizations && r.value.request == request &&
            r.value.requestHash == config.requestHash(request)
  {
    if authorizations == [] then None
    else if authorizations[0].request == request && authorizations[0].requestHash == config.requestHash(request) then
      Some(authorizations[0])
    else GrantFor(config, authorizations[1..], request)
  }
}

/**
 * Any number of readers advance one durable checkpoint by compare-and-swap. The store's two
 * operations are atomic; readers interleave in every order, any call may fail, and a swap may take
 * effect although its caller only learns of a failure.
 */
module CheckpointProtocol {
  import opened Outcomes
  import opened ModuleAuthorization

  const MAX_ATTEMPTS: nat := 2

  datatype Phase =
    | Requested
    | Authenticated(snapshot: Snapshot, at: int, attempt: nat)
    | Swapping(snapshot: Snapshot, at: int, attempt: nat, current: Option<Checkpoint>)
    | Advanced(snapshot: Snapshot, at: int)
    | Granted(snapshot: Snapshot, at: int, finishedAt: int, authorization: Authorization)
    | Denied
    | Exhausted  // the denial after the last attempt

  datatype Reader = Reader(request: Request, phase: Phase)

  /** `chain` is every checkpoint the store has held, oldest first; `causes` are the payloads that
      installed all but an initial one. */
  datatype State = State(
    stored: Option<Checkpoint>, readers: map<nat, Reader>, chain: seq<Checkpoint>, causes: seq<Payload>)

  datatype Step =
    | Begin(r: nat, request: Request)
    | Authenticate(r: nat, snapshot: Snapshot, now: int)
    | ReadStore(r: nat)
    | Swap(r: nat, spurious: bool)
    | SwapThrows(r: nat)
    | Finish(r: nat, now: int)
    | Fail(r: nat)

  function Initial(stored: Option<Checkpoint>): State
  {
    State(stored, map[], if stored.Some? then [stored.value] else [], [])
  }

  function Set(s: State, r: nat, phase: Phase): State
    requires r in s.readers
  {
    s.(readers := s.readers[r := Reader(s.readers[r].request, phase)])
  }

  /** The checkpoint read comes back: deny, be done, or try to install. */
  function AfterRead(config: Config, s: State, r: nat): State
    requires r in s.readers && s.readers[r].phase.Authenticated?
  {
    var Authenticated(snapshot, at, attempt) := s.readers[r].phase;
    match Judge(config, snapshot.payload, s.stored)
    case Deny => Set(s, r, Denied)
    case AlreadyInstalled => Set(s, r, Advanced(snapshot, at))
    case Install => Set(s, r, Swapping(snapshot, at, attempt, s.stored))
  }

  /** The store takes the reader's checkpoint, and the reader moves on to `phase`. */
  function AfterInstall(config: Config, s: State, r: nat, phase: Phase): State
    requires r in s.readers && s.readers[r].phase.Swapping?
  {
    var p := s.readers[r].phase.snapshot.payload;
    var next := NextCheckpoint(config, p);
    Set(s, r, phase).(stored := Some(next), chain := s.chain + [next], causes := s.causes + [p])
  }

  /** Compare and swap: it succeeds only if the stored checkpoint is still the one read. */
  function AfterSwap(config: Config, s: State, r: nat, spurious: bool): State
    requires r in s.readers && s.readers[r].phase.Swapping?
  {
    var Swapping(snapshot, at, attempt, current) := s.readers[r].phase;
    if s.stored == current && !spurious then AfterInstall(config, s, r, Advanced(snapshot, at))
    else if attempt + 1 < MAX_ATTEMPTS then Set(s, r, Authenticated(snapshot, at, attempt + 1))
    else Set(s, r, Exhausted)
  }

  /** A swap that takes effect in the store and then fails for its caller, who is denied. */
  function AfterThrow(config: Config, s: State, r: nat): State
    requires r in s.readers && s.readers[r].phase.Swapping?
  {
    if s.stored == s.readers[r].phase.current then AfterInstall(config, s, r, Denied) else Set(s, r, Denied)
  }

  function AfterFinish(config: Config, s: State, r: nat, now: int): State
    requires r in s.readers && s.readers[r].phase.Advanced?
  {
    var Advanced(snapshot, at) := s.readers[r].phase;
    var p := snapshot.payload;
    if now < at || p.validUntil <= now then Set(s, r, Denied)
    else
      match GrantFor(config, p.authorizations, s.readers[r].request)
      case None => Set(s, r, Denied)
      case Some(a) =>
        if a.validFrom <= now < a.validUntil then Set(s, r, Granted(snapshot, at, now, a)) else Set(s, r, Denied)
  }

  predicate Over(phase: Phase) { phase.Granted? || phase.Denied? || phase.Exhausted? }

  /** One atomic step; a step that is not possible changes nothing. */
  function Apply(config: Config, s: State, step: Step): (t: State)
  {
    match step
    case Begin(r, request) =>
      if r in s.readers then s else s.(readers := s.readers[r := Reader(request, Requested)])
    case Authenticate(r, snapshot, now) =>
      if r !in s.readers || !s.readers[r].phase.Requested? then s
      else if Authentic(config, snapshot, now) then Set(s, r, Authenticated(snapshot, now, 0))
      else Set(s, r, Denied)
    case ReadStore(r) =>
      if r in s.readers && s.readers[r].phase.Authenticated? then AfterRead(config, s, r) else s
    case Swap(r, spurious) =>
      if r in s.readers && s.readers[r].phase.Swapping? then AfterSwap(config, s, r, spurious) else s
    case SwapThrows(r) =>
      if r in s.readers && s.readers[r].phase.Swapping? then AfterThrow(config, s, r) else s
    case Finish(r, now) =>
      if r in s.readers && s.readers[r].phase.Advanced? then AfterFinish(config, s, r, now) else s
    case Fail(r) =>
      if r in s.readers && !Over(s.readers[r].phase) then Set(s, r, Denied) else s
  }

  function Run(config: Config, s: State, steps: seq<Step>): (t: State)
    decreases |steps|
  {
    if steps == [] then s else Run(config, Apply(config, s, steps[0]), steps[1..])
  }

  // ----- the chain -----

  /** Checkpoint `i` extends checkpoint `i - 1`, installed by a payload that names its hash. */
  ghost predicate Linked(config: Config, older: Checkpoint, cause: Payload, newer: Checkpoint)
  {
    && newer == NextCheckpoint(config, cause)
    && newer.snapshotVersion == older.snapshotVersion + 1
    && cause.previousSnapshotHash == Some(older.snapshotHash)
    && MarkAllowed(older.client, newer.client) && MarkAllowed(older.listener, newer.listener)
  }

  /** Every checkpoint was installed on top of the one before, and the store holds the last. */
  ghost predicate IsChain(config: Config, s: State)
  {
    var first := |s.chain| - |s.causes|;
    && 0 <= first <= 1
    && (s.chain == [] ==> s.stored == None)
    && (s.chain != [] ==> s.stored == Some(s.chain[|s.chain| - 1]))
    && (first == 0 && s.chain != [] ==>
          s.chain[0] == NextCheckpoint(config, s.causes[0]) && s.causes[0].previousSnapshotHash == None)
    && forall i :: 1 <= i < |s.chain| ==> Linked(config, s.chain[i - 1], s.causes[i - first], s.chain[i])
  }

  lemma {:induction false} VersionsRise(config: Config, s: State, i: nat, j: nat)
    requires IsChain(config, s) && i <= j < |s.chain|
    ensures s.chain[j].snapshotVersion == s.chain[i].snapshotVersion + (j - i)
    decreases j - i
  {
    if i < j {
      VersionsRise(config, s, i, j - 1);
      assert Linked(config, s.chain[j - 1], s.causes[j - (|s.chain| - |s.causes|)], s.chain[j]);
    }
  }

  /** Has the store moved to where this snapshot can no longer be installed? */
  predicate Overtaken(p: Payload, stored: Option<Checkpoint>)
  {
    stored.Some? && (p.snapshotVersion <= stored.value.snapshotVersion || p.previousSnapshotHash.None?)
  }

  /** Did the store hold `current` now or earlier? */
  predicate NotAhead(current: Option<Checkpoint>, stored: Option<Checkpoint>)
  {
    current == stored ||
    (stored.Some? && (current.None? || current.value.snapshotVersion < stored.value.snapshotVersion))
  }

  ghost predicate ReaderInvariant(config: Config, stored: Option<Checkpoint>, chain: seq<Checkpoint>, reader: Reader)
  {
    match reader.phase
    case Authenticated(snapshot, at, attempt) => Authentic(config, snapshot, at) && attempt < MAX_ATTEMPTS
    case Swapping(snapshot, at, attempt, current) =>
      && Authentic(config, snapshot, at) && attempt < MAX_ATTEMPTS
      && Judge(config, snapshot.payload, current) == Install && NotAhead(current, stored)
    case Advanced(snapshot, at) =>
      Authentic(config, snapshot, at) && NextCheckpoint(config, snapshot.payload) in chain
    case Granted(snapshot, at, finishedAt, a) =>
      && Authentic(config, snapshot, at) && NextCheckpoint(config, snapshot.payload) in chain
      && at <= finishedAt < snapshot.payload.validUntil
      && GrantFor(config, snapshot.payload.authorizations, reader.request) == Some(a)
      && a.validFrom <= finishedAt < a.validUntil
    case _ => true
  }

  ghost predicate Invariant(config: Config, s: State)
  {
    IsChain(config, s) && forall r :: r in s.readers ==> ReaderInvariant(config, s.stored, s.chain, s.readers[r])
  }

  /** Installing on top of the stored checkpoint keeps the chain. */
  lemma {:induction false} InstallExtends(config: Config, s: State, p: Payload)
    requires IsChain(config, s) && Judge(config, p, s.stored) == Install
    ensures var next := NextCheckpoint(config, p);
            IsChain(config, s.(stored := Some(next), chain := s.chain + [next], causes := s.causes + [p]))
  {
    var next := NextCheckpoint(config, p);
    var chain, causes := s.chain + [next], s.causes + [p];
    var first := |s.chain| - |s.causes|;
    forall i | 1 <= i < |chain| ensures Linked(config, chain[i - 1], causes[i - first], chain[i]) {
      if i < |s.chain| {
        assert chain[i - 1] == s.chain[i - 1] && chain[i] == s.chain[i] && causes[i - first] == s.causes[i - first];
      }
    }
  }

  /** Installing never takes back what another reader relies on. */
  lemma {:induction false} InstallKeepsReader(
    config: Config, stored: Option<Checkpoint>, chain: seq<Checkpoint>, next: Checkpoint, reader: Reader)
    requires ReaderInvariant(config, stored, chain, reader)
    requires stored.Some? ==> stored.value.snapshotVersion < next.snapshotVersion
    ensures ReaderInvariant(config, Some(next), chain + [next], reader)
  {
  }

  /** A step that only moves one reader keeps the invariant if it does for that reader. */
  lemma {:induction false} MoveKeeps(config: Config, s: State, r: nat, phase: Phase)
    requires Invariant(config, s) && r in s.readers
    requires ReaderInvariant(config, s.stored, s.chain, Reader(s.readers[r].request, phase))
    ensures Invariant(config, Set(s, r, phase))
  {
    var t := Set(s, r, phase);
    assert IsChain(config, t);
    forall q | q in t.readers ensures ReaderInvariant(config, t.stored, t.chain, t.readers[q]) {
      assert q != r ==> t.readers[q] == s.readers[q];
    }
  }

  lemma {:induction false} InstallKeeps(config: Config, s: State, r: nat, phase: Phase)
    requires Invariant(config, s) && r in s.readers && s.readers[r].phase.Swapping?
    requires s.stored == s.readers[r].phase.current
    requires phase == Denied || phase == Advanced(s.readers[r].phase.snapshot, s.readers[r].phase.at)
    ensures Invariant(config, AfterInstall(config, s, r, phase))
  {
    var Swapping(snapshot, at, attempt, current) := s.readers[r].phase;
    var t := AfterInstall(config, s, r, phase);
    var next := NextCheckpoint(config, snapshot.payload);
    assert ReaderInvariant(config, s.stored, s.chain, s.readers[r]);
    InstallExtends(config, s, snapshot.payload);
    assert IsChain(config, t);
    forall q | q in t.readers ensures ReaderInvariant(config, t.stored, t.chain, t.readers[q]) {
      if q == r {
        assert next in t.chain;
      } else {
        assert t.readers[q] == s.readers[q];
        InstallKeepsReader(config, s.stored, s.chain, next, s.readers[q]);
      }
    }
  }

  lemma {:induction false} SwapKeeps(config: Config, s: State, r: nat, spurious: bool)
    requires Invariant(config, s) && r in s.readers && s.readers[r].phase.Swapping?
    ensures Invariant(config, AfterSwap(config, s, r, spurious))
  {
    var Swapping(snapshot, at, attempt, current) := s.readers[r].phase;
    assert ReaderInvariant(config, s.stored, s.chain, s.readers[r]);
    if s.stored == current && !spurious {
      InstallKeeps(config, s, r, Advanced(snapshot, at));
    } else if attempt + 1 < MAX_ATTEMPTS {
      MoveKeeps(config, s, r, Authenticated(snapshot, at, attempt + 1));
    } else {
      MoveKeeps(config, s, r, Exhausted);
    }
  }

  lemma {:induction false} ThrowKeeps(config: Config, s: State, r: nat)
    requires Invariant(config, s) && r in s.readers && s.readers[r].phase.Swapping?
    ensures Invariant(config, AfterThrow(config, s, r))
  {
    if s.stored == s.readers[r].phase.current {
      InstallKeeps(config, s, r, Denied);
    } else {
      MoveKeeps(config, s, r, Denied);
    }
  }

  lemma {:induction false} ReadKeeps(config: Config, s: State, r: nat)
    requires Invariant(config, s) && r in s.readers && s.readers[r].phase.Authenticated?
    ensures Invariant(config, AfterRead(config, s, r))
  {
    var Authenticated(snapshot, at, attempt) := s.readers[r].phase;
    assert ReaderInvariant(config, s.stored, s.chain, s.readers[r]);
    match Judge(config, snapshot.payload, s.stored) {
      case Deny => MoveKeeps(config, s, r, Denied);
      case AlreadyInstalled =>
        assert s.stored.value in s.chain;
        MoveKeeps(config, s, r, Advanced(snapshot, at));
      case Install => MoveKeeps(config, s, r, Swapping(snapshot, at, attempt, s.stored));
    }
  }

  lemma {:induction false} FinishKeeps(config: Config, s: State, r: nat, now: int)
    requires Invariant(config, s) && r in s.readers && s.readers[r].phase.Advanced?
    ensures Invariant(config, AfterFinish(config, s, r, now))
  {
    assert ReaderInvariant(config, s.stored, s.chain, s.readers[r]);
    MoveKeeps(config, s, r, AfterFinish(config, s, r, now).readers[r].phase);
  }

  lemma {:induction false} StepKeeps(config: Config, s: State, step: Step)
    requires Invariant(config, s)
    ensures Invariant(config, Apply(config, s, step))
  {
    match step {
      case Begin(r, request) =>
        assert ReaderInvariant(config, s.stored, s.chain, Reader(request, Requested));
        assert IsChain(config, Apply(config, s, step));
      case Authenticate(r, snapshot, now) =>
        if r in s.readers && s.readers[r].phase.Requested? {
          MoveKeeps(config, s, r, if Authentic(config, snapshot, now) then Authenticated(snapshot, now, 0) else Denied);
        }
      case ReadStore(r) =>
        if r in s.readers && s.readers[r].phase.Authenticated? {
          ReadKeeps(config, s, r);
        }
      case Swap(r, spurious) =>
        if r in s.readers && s.readers[r].phase.Swapping? {
          SwapKeeps(config, s, r, spurious);
        }
      case SwapThrows(r) =>
        if r in s.readers && s.readers[r].phase.Swapping? {
          ThrowKeeps(config, s, r);
        }
      case Finish(r, now) =>
        if r in s.readers && s.readers[r].phase.Advanced? {
          FinishKeeps(config, s, r, now);
        }
      case Fail(r) =>
        if r in s.readers && !Over(s.readers[r].phase) {
          MoveKeeps(config, s, r, Denied);
        }
    }
  }

  lemma {:induction false} RunKeeps(config: Config, s: State, steps: seq<Step>)
    requires Invariant(config, s)
    ensures Invariant(config, Run(config, s, steps))
    decreases |steps|
  {
    if steps != [] {
      StepKeeps(config, s, steps[0]);
      RunKeeps(config, Apply(config, s, steps[0]), steps[1..]);
    }
  }

  /**
   * In every interleaving the installed checkpoints are one hash chain with versions rising by
   * exactly one, and every grant's snapshot is one of its links.
   */
  lemma {:induction false} OneChain(config: Config, stored: Option<Checkpoint>, steps: seq<Step>)
    ensures var s := Run(config, Initial(stored), steps); Invariant(config, s)
  {
    assert Invariant(config, Initial(stored));
    RunKeeps(config, Initial(stored), steps);
  }

  /** Two grants at one snapshot version come from one snapshot, as far as its hash can tell. */
  lemma {:induction false} OneSnapshotPerVersion(
    config: Config, stored: Option<Checkpoint>, steps: seq<Step>, q: nat, r: nat)
    requires var s := Run(config, Initial(stored), steps);
             && q in s.readers && r in s.readers && s.readers[q].phase.Granted? && s.readers[r].phase.Granted?
             && s.readers[q].phase.snapshot.payload.snapshotVersion ==
                s.readers[r].phase.snapshot.payload.snapshotVersion
    ensures var s := Run(config, Initial(stored), steps);
            && config.payloadHash(s.readers[q].phase.snapshot.payload) ==
               config.payloadHash(s.readers[r].phase.snapshot.payload)
            && NextCheckpoint(config, s.readers[q].phase.snapshot.payload) ==
               NextCheckpoint(config, s.readers[r].phase.snapshot.payload)
  {
    OneChain(config, stored, steps);
    var s := Run(config, Initial(stored), steps);
    assert ReaderInvariant(config, s.stored, s.chain, s.readers[q]) &&
      ReaderInvariant(config, s.stored, s.chain, s.readers[r]);
    var a := NextCheckpoint(config, s.readers[q].phase.snapshot.payload);
    var b := NextCheckpoint(config, s.readers[r].phase.snapshot.payload);
    var i :| 0 <= i < |s.chain| && s.chain[i] == a;
    var j :| 0 <= j < |s.chain| && s.chain[j] == b;
    VersionsRise(config, s, if i <= j then i else j, if i <= j then j else i);
  }

  // ----- no going back -----

  ghost predicate StoredAtLeast(s: State, v: nat) { s.stored.Some? && v <= s.stored.value.snapshotVersion }

  /** The reader has not read the checkpoint yet, or everything it holds is at version `v` or later. */
  ghost predicate AtLeast(s: State, r: nat, v: nat)
  {
    r in s.readers ==>
      match s.readers[r].phase
      case Requested => true
      case Authenticated(_, _, _) => true
      case Swapping(snapshot, _, _, current) =>
        current.Some? && v <= current.value.snapshotVersion && v <= snapshot.payload.snapshotVersion
      case Advanced(snapshot, _) => v <= snapshot.payload.snapshotVersion
      case Granted(snapshot, _, _, _) => v <= snapshot.payload.snapshotVersion
      case _ => true
  }

  lemma {:induction false} NoGoingBackSwap(config: Config, s: State, q: nat, spurious: bool, r: nat, v: nat)
    requires Invariant(config, s) && q in s.readers && s.readers[q].phase.Swapping?
    requires StoredAtLeast(s, v) && AtLeast(s, r, v)
    ensures var t := AfterSwap(config, s, q, spurious); StoredAtLeast(t, v) && AtLeast(t, r, v)
  {
    assert ReaderInvariant(config, s.stored, s.chain, s.readers[q]);
  }

  lemma {:induction false} NoGoingBackThrow(config: Config, s: State, q: nat, r: nat, v: nat)
    requires Invariant(config, s) && q in s.readers && s.readers[q].phase.Swapping?
    requires StoredAtLeast(s, v) && AtLeast(s, r, v)
    ensures var t := AfterThrow(config, s, q); StoredAtLeast(t, v) && AtLeast(t, r, v)
  {
    assert ReaderInvariant(config, s.stored, s.chain, s.readers[q]);
  }

  lemma {:induction false} NoGoingBackRead(config: Config, s: State, q: nat, r: nat, v: nat)
    requires q in s.readers && s.readers[q].phase.Authenticated? && StoredAtLeast(s, v) && AtLeast(s, r, v)
    ensures var t := AfterRead(config, s, q); StoredAtLeast(t, v) && AtLeast(t, r, v)
  {
  }

  lemma {:induction false} NoGoingBackStep(config: Config, s: State, step: Step, r: nat, v: nat)
    requires Invariant(config, s) && StoredAtLeast(s, v) && AtLeast(s, r, v)
    ensures var t := Apply(config, s, step); StoredAtLeast(t, v) && AtLeast(t, r, v)
  {
    match step {
      case ReadStore(q) =>
        if q in s.readers && s.readers[q].phase.Authenticated? {
          NoGoingBackRead(config, s, q, r, v);
        }
      case Swap(q, spurious) =>
        if q in s.readers && s.readers[q].phase.Swapping? {
          NoGoingBackSwap(config, s, q, spurious, r, v);
        }
      case SwapThrows(q) =>
        if q in s.readers && s.readers[q].phase.Swapping? {
          NoGoingBackThrow(config, s, q, r, v);
        }
      case _ =>
    }
  }

  lemma {:induction false} NoGoingBackRun(config: Config, s: State, steps: seq<Step>, r: nat, v: nat)
    requires Invariant(config, s) && StoredAtLeast(s, v) && AtLeast(s, r, v)
    ensures AtLeast(Run(config, s, steps), r, v)
    decreases |steps|
  {
    if steps != [] {
      NoGoingBackStep(config, s, steps[0], r, v);
      StepKeeps(config, s, steps[0]);
      NoGoingBackRun(config, Apply(config, s, steps[0]), steps[1..], r, v);
    }
  }

  lemma {:induction false} GrantIsStored(config: Config, s: State, q: nat)
    requires Invariant(config, s) && q in s.readers && s.readers[q].phase.Granted?
    ensures StoredAtLeast(s, s.readers[q].phase.snapshot.payload.snapshotVersion)
  {
    assert ReaderInvariant(config, s.stored, s.chain, s.readers[q]);
    var i :| 0 <= i < |s.chain| && s.chain[i] == NextCheckpoint(config, s.readers[q].phase.snapshot.payload);
    VersionsRise(config, s, i, |s.chain| - 1);
  }

  /** A reader whose checkpoint read, the first or the one of its second attempt, is still to come. */
  predicate BeforeRead(s: State, r: nat)
  {
    r !in s.readers || s.readers[r].phase.Requested? || s.readers[r].phase.Authenticated?
  }

  /**
   * Once a reader has been granted version v, no reader that reads the checkpoint afterwards, for the
   * first time or again, is ever granted a lower version.
   */
  lemma {:induction false} NoGoingBack(
    config: Config, stored: Option<Checkpoint>, before: seq<Step>, after: seq<Step>, q: nat, r: nat)
    requires var s := Run(config, Initial(stored), before);
             q in s.readers && s.readers[q].phase.Granted? && BeforeRead(s, r)
    ensures var s := Run(config, Initial(stored), before);
            var t := Run(config, s, after);
            r in t.readers && t.readers[r].phase.Granted? ==>
              s.readers[q].phase.snapshot.payload.snapshotVersion <= t.readers[r].phase.snapshot.payload.snapshotVersion
  {
    OneChain(config, stored, before);
    var s := Run(config, Initial(stored), before);
    GrantIsStored(config, s, q);
    NoGoingBackRun(config, s, after, r, s.readers[q].phase.snapshot.payload.snapshotVersion);
  }

  // ----- two attempts suffice -----

  ghost predicate NeverSpurious(steps: seq<Step>)
  {
    forall i :: 0 <= i < |steps| ==> !(steps[i].Swap? && steps[i].spurious)
  }

  /** A reader on its second attempt has been overtaken, so it will not try to install again. */
  ghost predicate SecondTryIsLast(stored: Option<Checkpoint>, phase: Phase)
  {
    && (phase.Authenticated? && phase.attempt > 0 ==> Overtaken(phase.snapshot.payload, stored))
    && (phase.Swapping? ==> phase.attempt == 0)
    && !phase.Exhausted?
  }

  ghost predicate AllSecondTriesLast(s: State)
  {
    forall r :: r in s.readers ==> SecondTryIsLast(s.stored, s.readers[r].phase)
  }

  lemma {:induction false} OvertakenIsNotInstalled(config: Config, p: Payload, stored: Option<Checkpoint>)
    requires Overtaken(p, stored)
    ensures Judge(config, p, stored) != Install
  {
  }

  lemma {:induction false} SecondTryRead(config: Config, s: State, r: nat)
    requires AllSecondTriesLast(s) && r in s.readers && s.readers[r].phase.Authenticated?
    ensures AllSecondTriesLast(AfterRead(config, s, r))
  {
    assert SecondTryIsLast(s.stored, s.readers[r].phase);
    if s.readers[r].phase.attempt > 0 {
      OvertakenIsNotInstalled(config, s.readers[r].phase.snapshot.payload, s.stored);
    }
  }

  /** A swap that fails because the store moved leaves the snapshot overtaken. */
  lemma {:induction false} FailedSwapIsOvertaken(
    config: Config, p: Payload, current: Option<Checkpoint>, stored: Option<Checkpoint>)
    requires Judge(config, p, current) == Install && NotAhead(current, stored) && current != stored
    ensures Overtaken(p, stored)
  {
  }

  /** Installing overtakes whoever was overtaken before. */
  lemma {:induction false} SecondTryInstall(config: Config, s: State, r: nat, phase: Phase)
    requires Invariant(config, s) && AllSecondTriesLast(s) && r in s.readers && s.readers[r].phase.Swapping?
    requires s.stored == s.readers[r].phase.current && (phase.Denied? || phase.Advanced?)
    ensures AllSecondTriesLast(AfterInstall(config, s, r, phase))
  {
    var t := AfterInstall(config, s, r, phase);
    assert ReaderInvariant(config, s.stored, s.chain, s.readers[r]);
    forall q | q in t.readers ensures SecondTryIsLast(t.stored, t.readers[q].phase) {
      if q != r {
        assert t.readers[q] == s.readers[q] && SecondTryIsLast(s.stored, s.readers[q].phase);
      }
    }
  }

  lemma {:induction false} SecondTrySwap(config: Config, s: State, r: nat)
    requires Invariant(config, s) && AllSecondTriesLast(s) && r in s.readers && s.readers[r].phase.Swapping?
    ensures AllSecondTriesLast(AfterSwap(config, s, r, false))
  {
    var Swapping(snapshot, at, attempt, current) := s.readers[r].phase;
    assert ReaderInvariant(config, s.stored, s.chain, s.readers[r]);
    assert SecondTryIsLast(s.stored, s.readers[r].phase);
    if s.stored == current {
      SecondTryInstall(config, s, r, Advanced(snapshot, at));
    } else {
      FailedSwapIsOvertaken(config, snapshot.payload, current, s.stored);
    }
  }

  lemma {:induction false} SecondTryThrow(config: Config, s: State, r: nat)
    requires Invariant(config, s) && AllSecondTriesLast(s) && r in s.readers && s.readers[r].phase.Swapping?
    ensures AllSecondTriesLast(AfterThrow(config, s, r))
  {
    if s.stored == s.readers[r].phase.current { SecondTryInstall(config, s, r, Denied); }
  }

  lemma {:induction false} SecondTryStep(config: Config, s: State, step: Step)
    requires Invariant(config, s) && AllSecondTriesLast(s) && !(step.Swap? && step.spurious)
    ensures AllSecondTriesLast(Apply(config, s, step))
  {
    match step {
      case ReadStore(r) =>
        if r in s.readers && s.readers[r].phase.Authenticated? {
          SecondTryRead(config, s, r);
        }
      case Swap(r, spurious) =>
        if r in s.readers && s.readers[r].phase.Swapping? {
          SecondTrySwap(config, s, r);
        }
      case SwapThrows(r) =>
        if r in s.readers && s.readers[r].phase.Swapping? {
          SecondTryThrow(config, s, r);
        }
      case _ =>
    }
  }

  lemma {:induction false} SecondTryRun(config: Config, s: State, steps: seq<Step>)
    requires Invariant(config, s) && AllSecondTriesLast(s) && NeverSpurious(steps)
    ensures AllSecondTriesLast(Run(config, s, steps))
    decreases |steps|
  {
    if steps != [] {
      assert !(steps[0].Swap? && steps[0].spurious);
      SecondTryStep(config, s, steps[0]);
      StepKeeps(config, s, steps[0]);
      SecondTryRun(config, Apply(config, s, steps[0]), steps[1..]);
    }
  }

  /**
   * When a swap fails only because the stored checkpoint differs, no reader in any interleaving
   * runs out of its two attempts.
   */
  lemma {:induction false} TwoAttemptsSuffice(config: Config, stored: Option<Checkpoint>, steps: seq<Step>, r: nat)
    requires NeverSpurious(steps)
    ensures var s := Run(config, Initial(stored), steps); r in s.readers ==> !s.readers[r].phase.Exhausted?
  {
    SecondTryRun(config, Initial(stored), steps);
  }

  // ----- one authorization over time -----

  /** Kind `kind` keeps authorization id `id` from checkpoint `i` to checkpoint `j`. */
  ghost predicate KeepsId(s: State, kind: ModuleKind, id: string, i: nat, j: nat)
  {
    i <= j < |s.chain| &&
    forall k :: i <= k <= j ==> MarkOf(s.chain[k], kind).Some? && MarkOf(s.chain[k], kind).value.id == id
  }

  /**
   * Along any stretch of installed checkpoints in which a module kind keeps one authorization id,
   * its version never falls, and an unchanged version means an unchanged authorization hash.
   */
  lemma {:induction false} MarksNeverFall(config: Config, s: State, kind: ModuleKind, id: string, i: nat, j: nat)
    requires IsChain(config, s) && KeepsId(s, kind, id, i, j)
    ensures var a, b := MarkOf(s.chain[i], kind).value, MarkOf(s.chain[j], kind).value;
            a.version <= b.version && (a.version == b.version ==> a.hash == b.hash)
    decreases j - i
  {
    if i < j {
      MarksNeverFall(config, s, kind, id, i, j - 1);
      assert Linked(config, s.chain[j - 1], s.causes[j - (|s.chain| - |s.causes|)], s.chain[j]);
      assert MarkAllowed(MarkOf(s.chain[j - 1], kind), MarkOf(s.chain[j], kind));
    }
  }
}

/** The one-use loader and the clock samples under which it hands a module out. */
module ModuleLoader {
  import opened Outcomes
  import opened ModuleAuthorization
  import opened CheckpointProtocol

  const MAX_AUTHORIZATION_LIFETIME_MS: int := 300_000

  predicate Fresh(a: Authorization, now: int)
  {
    a.validFrom <= now < a.validUntil && a.validUntil - a.validFrom <= MAX_AUTHORIZATION_LIFETIME_MS
  }

  /** The clock readings of one load, and what the host and the caller do meanwhile. */
  datatype Samples = Samples(before: int, afterDirectory: int, beforeOpen: int, afterLoad: int)

  datatype Weather = Weather(abortedAtStart: bool, abortedLater: bool, directoryOk: bool, moduleOk: bool)

  /** A load that passes every check. */
  predicate Loads(config: Config, request: Request, a: Authorization, t: Samples, w: Weather)
  {
    && !w.abortedAtStart && !w.abortedLater && w.directoryOk && w.moduleOk
    && Fresh(a, t.before) && a.request == request && a.requestHash == config.requestHash(request)
    && t.before <= t.afterDirectory && Fresh(a, t.afterDirectory)
    && a.validFrom <= t.beforeOpen < a.validUntil
    && t.afterDirectory <= t.afterLoad && Fresh(a, t.afterLoad)
  }

  /** What a load needs, check by check, whatever order the loader makes them in. */
  lemma {:induction false} LoadsMeans(config: Config, request: Request, a: Authorization, t: Samples, w: Weather)
    ensures Loads(config, request, a, t, w) <==>
            && a.request == request && a.requestHash == config.requestHash(request)
            && a.validUntil - a.validFrom <= 300_000
            && (forall x :: x in [t.before, t.afterDirectory, t.beforeOpen, t.afterLoad] ==>
               a.validFrom <= x &&
               x < a.validUntil)
            && t.before <= t.afterDirectory && t.afterDirectory <= t.afterLoad
            && w == Weather(false, false, true, true)
  {
    var all := [t.before, t.afterDirectory, t.beforeOpen, t.afterLoad];
    assert all[0] in all && all[1] in all && all[2] in all && all[3] in all;
  }

  class Loader {
    var attempted: bool

    constructor ()
      ensures !attempted
    {
      attempted := false;
    }

    /** `source` is what the authorization source answered; `None` is its denial. */
    method Load(
      config: Config, request: Request, source: Option<Authorization>, t: Samples, w: Weather) returns (loaded: bool)
      modifies this
      ensures attempted
      ensures loaded <==> !old(attempted) && source.Some? && Loads(config, request, source.value, t, w)
    {
      if attempted {
        return false;
      }
      attempted := true;
      if w.abortedAtStart || source.None? {
        return false;
      }
      var a := source.value;
      if !Fresh(a, t.before) || a.request != request || a.requestHash != config.requestHash(request) || w.abortedLater {
        return false;
      }
      if !w.directoryOk || t.afterDirectory < t.before || !Fresh(a, t.afterDirectory) {
        return false;
      }
      if t.beforeOpen < a.validFrom || a.validUntil <= t.beforeOpen || !w.moduleOk {
        return false;
      }
      if t.afterLoad < t.afterDirectory || !Fresh(a, t.afterLoad) {
        return false;
      }
      return true;
    }
  }

  predicate InsideRoot(root: Root, t: int)
  {
    root.validFrom <= t < root.validUntil && (root.revokedAt.Some? ==> t < root.revokedAt.value)
  }

  /**
   * A module loaded on a grant of the trust source was loaded while the signer's root was valid and
   * not revoked at every clock sample, although the root is consulted only at authentication.
   */
  lemma {:induction false} LoadedInsideRoot(
    config: Config, stored: Option<Checkpoint>, steps: seq<Step>, r: nat, t: Samples, w: Weather)
    requires var s := Run(config, Initial(stored), steps);
             && r in s.readers && s.readers[r].phase.Granted?
             && Loads(config, s.readers[r].request, s.readers[r].phase.authorization, t, w)
    ensures var key := Run(config, Initial(stored), steps).readers[r].phase.snapshot.payload.signerKeyId;
            && key in config.roots
            && InsideRoot(config.roots[key], t.before) && InsideRoot(config.roots[key], t.afterDirectory)
            && InsideRoot(config.roots[key], t.beforeOpen) && InsideRoot(config.roots[key], t.afterLoad)
  {
    OneChain(config, stored, steps);
    var s := Run(config, Initial(stored), steps);
    assert ReaderInvariant(config, s.stored, s.chain, s.readers[r]);
    var Granted(snapshot, at, finishedAt, a) := s.readers[r].phase;
    var p := snapshot.payload;
    var i :| 0 <= i < |p.authorizations| && p.authorizations[i] == a;
    assert InsideSnapshot(p, p.authorizations[i]);
  }
}
