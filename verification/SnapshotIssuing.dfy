/**
 * The controller that issues module-authorization snapshots, and what the authenticator, the trust
 * source and the module loader later make of what it issued. Signing itself is in SigningChain.
 */
module SnapshotIssuing {
  import opened Outcomes
  import opened ModuleAuthorization
  import opened CheckpointProtocol
  import opened ModuleLoader

  /** One module of an issue request; `facts` are those of its authorization. */
  datatype Entry = Entry(
    workspaceId: string,
    supervisorInstanceId: string,
    request: Request,
    authorizationId: string,
    authorizationVersion: nat,
    validFrom: int,
    validUntil: int,
    facts: string)

  datatype IssueRequest = IssueRequest(
    workspaceId: string,
    supervisorInstanceId: string,
    snapshotId: string,
    snapshotVersion: nat,
    signerKeyId: string,
    previousSnapshotHash: Option<Hash>,
    issuedAt: int,
    validUntil: int,
    entries: seq<Entry>)

  datatype AuthorityRequest = AuthorityRequest(
    workspaceId: string,
    supervisorInstanceId: string,
    snapshotId: string,
    snapshotVersion: nat,
    signerKeyId: string,
    issuanceRequestHash: Hash)

  /** What the issuance authority answers; `request` are the fields it repeats. */
  datatype Approval = Approval(
    request: AuthorityRequest, authorityRequestHash: Hash, authorityLevel: int, validFrom: int, validUntil: int)

  /** The hashes, the validator that controller and authenticator share, and the directory part of the facts. */
  datatype Rules = Rules(
    requestHash: Request -> Hash,
    issueHash: IssueRequest -> Hash,
    authorityHash: AuthorityRequest -> Hash,
    valid: Authorization -> bool,
    directory: string -> string)

  /** The three clock readings of one issuance. */
  datatype Clock = Clock(now: int, afterApproval: int, beforePublish: int)

  /** Whether the caller had aborted at the same three moments. */
  datatype Aborts = Aborts(atStart: bool, afterApproval: bool, beforePublish: bool)

  const MAX_LIFETIME_MS: int := 300_000

  // ----- what the controller checks -----

  /** At most two modules, the client's first, of one supervisor, sharing one socket. */
  predicate WellFormedRequest(rules: Rules, q: IssueRequest)
  {
    && IsVersion(q.snapshotVersion) && |q.entries| <= 2
    && (forall i :: 0 <= i < |q.entries| ==>
          IsVersion(q.entries[i].authorizationVersion) &&
          q.entries[i].workspaceId == q.workspaceId && q.entries[i].supervisorInstanceId == q.supervisorInstanceId)
    && (|q.entries| == 2 ==>
          var client, listener := q.entries[0], q.entries[1];
          && client.request.moduleKind == Client && listener.request.moduleKind == Listener
          && client.authorizationId != listener.authorizationId
          && client.request.socketPath == listener.request.socketPath
          && rules.directory(client.facts) == rules.directory(listener.facts))
  }

  predicate SnapshotTimely(q: IssueRequest, now: int)
  {
    q.issuedAt <= now < q.validUntil && q.validUntil - q.issuedAt <= MAX_LIFETIME_MS
  }

  predicate EntryTimely(q: IssueRequest, e: Entry, now: int)
  {
    q.issuedAt <= e.validFrom <= now < e.validUntil <= q.validUntil && e.validUntil - e.validFrom <= MAX_LIFETIME_MS
  }

  function AuthorityAsked(rules: Rules, q: IssueRequest): AuthorityRequest
  {
    AuthorityRequest(q.workspaceId, q.supervisorInstanceId, q.snapshotId, q.snapshotVersion, q.signerKeyId,
      rules.issueHash(q))
  }

  predicate Approves(rules: Rules, q: IssueRequest, a: Approval)
  {
    a.request == AuthorityAsked(rules, q) && a.authorityRequestHash == rules.authorityHash(a.request) &&
      a.authorityLevel == 3
  }

  predicate ApprovalTimely(a: Approval, now: int)
  {
    a.validFrom <= now < a.validUntil && a.validUntil - a.validFrom <= MAX_LIFETIME_MS
  }

  function AuthorizationOf(rules: Rules, e: Entry): Authorization
  {
    Authorization(e.request, e.authorizationId, e.authorizationVersion, rules.requestHash(e.request), e.validFrom,
      e.validUntil, e.facts)
  }

  function AuthorizationsOf(rules: Rules, entries: seq<Entry>): (r: seq<Authorization>)
    ensures |r| == |entries| && forall i :: 0 <= i < |r| ==> r[i] == AuthorizationOf(rules, entries[i])
  {
    if entries == [] then []
      else AuthorizationsOf(rules, entries[..|entries| - 1]) + [AuthorizationOf(rules, entries[|entries| - 1])]
  }

  function PayloadOf(rules: Rules, q: IssueRequest): Payload
  {
    Payload(q.snapshotId, q.snapshotVersion, q.signerKeyId, q.supervisorInstanceId, q.issuedAt, q.validUntil,
            q.previousSnapshotHash, AuthorizationsOf(rules, q.entries))
  }

  /** Everything that has to hold for a snapshot to reach the publisher. */
  predicate MayIssue(
    rules: Rules, workspaceId: string, instance: string, q: IssueRequest, a: Approval, t: Clock, aborts: Aborts)
  {
    && aborts == Aborts(false, false, false)
    && WellFormedRequest(rules, q) && q.workspaceId == workspaceId && q.supervisorInstanceId == instance
    && SnapshotTimely(q, t.now) && (forall i :: 0 <= i < |q.entries| ==> EntryTimely(q, q.entries[i], t.now))
    && Approves(rules, q, a) && ApprovalTimely(a, t.afterApproval)
    && t.now <= t.afterApproval < q.validUntil
    && (forall i :: 0 <= i < |q.entries| ==>
       t.afterApproval < q.entries[i].validUntil &&
       rules.valid(AuthorizationOf(rules, q.entries[i])))
    && t.afterApproval <= t.beforePublish < q.validUntil && t.beforePublish < a.validUntil
  }

  /** The snapshot says what was asked for, field by field. */
  predicate Publishes(s: Snapshot, q: IssueRequest, signature: string)
  {
    var p := s.payload;
    && s.signature == signature
    && p.snapshotId == q.snapshotId && p.snapshotVersion == q.snapshotVersion && p.signerKeyId == q.signerKeyId
    && p.supervisorInstanceId == q.supervisorInstanceId && p.previousSnapshotHash == q.previousSnapshotHash
    && p.issuedAt == q.issuedAt && p.validUntil == q.validUntil && |p.authorizations| == |q.entries|
    && forall i :: 0 <= i < |q.entries| ==>
         var a, e := p.authorizations[i], q.entries[i];
         && a.request == e.request && a.facts == e.facts
         && a.authorizationId == e.authorizationId && a.authorizationVersion == e.authorizationVersion
         && a.validFrom == e.validFrom && a.validUntil == e.validUntil
  }

  /**
   * What every issuance has passed: an approval of level 3 for these very fields and this very
   * request, in its own window of at most five minutes at all three readings; a request of one
   * supervisor, whose windows lie in the snapshot's; and each authorization hashed and validated.
   */
  lemma {:induction false} IssuedMeans(
    rules: Rules, workspaceId: string, instance: string, q: IssueRequest, a: Approval, t: Clock, aborts: Aborts, i: nat)
    requires MayIssue(rules, workspaceId, instance, q, a, t, aborts)
    ensures q.workspaceId == workspaceId && q.supervisorInstanceId == instance && 1 <= q.snapshotVersion <= 1_000_000
    ensures a == Approval(AuthorityRequest(workspaceId, instance, q.snapshotId, q.snapshotVersion, q.signerKeyId,
            rules.issueHash(q)),
                          rules.authorityHash(a.request), 3, a.validFrom, a.validUntil)
    ensures a.validFrom <= t.afterApproval && t.beforePublish < a.validUntil <= a.validFrom + 300_000
    ensures q.issuedAt <= t.now <= t.afterApproval <= t.beforePublish < q.validUntil <= q.issuedAt + 300_000
    ensures !aborts.atStart && !aborts.afterApproval && !aborts.beforePublish
    ensures |q.entries| <= 2
    ensures i < |q.entries| ==>
            var e := q.entries[i];
            && e.workspaceId == workspaceId && e.supervisorInstanceId == instance &&
               1 <= e.authorizationVersion <= 1_000_000
            && q.issuedAt <= e.validFrom <= t.now && t.afterApproval < e.validUntil <= q.validUntil
            && e.validUntil <= e.validFrom + 300_000
            && rules.valid(Authorization(e.request, e.authorizationId, e.authorizationVersion,
               rules.requestHash(e.request),
                                         e.validFrom, e.validUntil, e.facts))
    ensures |q.entries| == 2 ==>
            var client, listener := q.entries[0], q.entries[1];
            && client.request.moduleKind == Client && listener.request.moduleKind == Listener
            && client.authorizationId != listener.authorizationId
            && client.request.socketPath == listener.request.socketPath
            && rules.directory(client.facts) == rules.directory(listener.facts)
  {
    if i < |q.entries| { assert EntryTimely(q, q.entries[i], t.now); }
  }

  class Controller {
    var attempted: bool
    const workspaceId: string
    const instance: string

    constructor (workspaceId: string, instance: string)
      ensures !attempted && this.workspaceId == workspaceId && this.instance == instance
    {
      this.workspaceId, this.instance := workspaceId, instance;
      attempted := false;
    }

    /** `approval` and `signature` are what authority and signer answered; `None` is a denial. */
    method Issue(
      rules: Rules, q: IssueRequest, approval: Option<Approval>, signature: Option<string>, t: Clock, aborts: Aborts)
      returns (r: Option<Snapshot>)
      modifies this
      ensures attempted
      ensures r.Some? <==>
              !old(attempted) && approval.Some? && signature.Some? &&
                MayIssue(rules, workspaceId, instance, q, approval.value, t, aborts)
      ensures r.Some? ==>
              r.value == Snapshot(PayloadOf(rules, q), signature.value) &&
              Publishes(r.value, q, signature.value)
    {
      if attempted { return None; }
      attempted := true;
      if aborts.atStart || !WellFormedRequest(rules, q) || q.workspaceId != workspaceId ||
        q.supervisorInstanceId != instance
      {
        return None;
      }
      if !SnapshotTimely(q, t.now) { return None; }
      for i := 0 to |q.entries|
        invariant forall j :: 0 <= j < i ==> EntryTimely(q, q.entries[j], t.now)
      {
        if !EntryTimely(q, q.entries[i], t.now) { return None; }
      }
      if approval.None? || !Approves(rules, q, approval.value) { return None; }
      var a := approval.value;
      if aborts.afterApproval || t.afterApproval < t.now || !ApprovalTimely(a, t.afterApproval) ||
        q.validUntil <= t.afterApproval
      {
        return None;
      }
      for i := 0 to |q.entries|
        invariant forall j :: 0 <= j < i ==>
                  t.afterApproval < q.entries[j].validUntil &&
                  rules.valid(AuthorizationOf(rules, q.entries[j]))
      {
        if q.entries[i].validUntil <= t.afterApproval || !rules.valid(AuthorizationOf(rules, q.entries[i])) {
          return None;
        }
      }
      if signature.None? || aborts.beforePublish || t.beforePublish < t.afterApproval ||
        q.validUntil <= t.beforePublish ||
         a.validUntil <= t.beforePublish
      {
        return None;
      }
      return Some(Snapshot(PayloadOf(rules, q), signature.value));
    }
  }

  // ----- what becomes of an issued snapshot -----

  /** The root of the signer admits the version and spans the snapshot's window, before any revocation. */
  predicate Covers(root: Root, p: Payload)
  {
    && root.minimumSnapshotVersion <= p.snapshotVersion
    && root.validFrom <= p.issuedAt && p.validUntil <= root.validUntil
    && (root.revokedAt.Some? ==> p.validUntil <= root.revokedAt.value)
  }

  /**
   * What the controller issued, the authenticator accepts at a clock reading exactly when that lies
   * in the snapshot's window and the signer's root covers the window: nothing else can refuse it.
   */
  lemma {:induction false} IssuedIsAuthentic(
    rules: Rules, config: Config, q: IssueRequest, a: Approval, t: Clock, aborts: Aborts, signature: string, at: int)
    requires MayIssue(rules, q.workspaceId, config.supervisorInstanceId, q, a, t, aborts)
    requires q.signerKeyId in config.roots ==>
             config.verify(config.roots[q.signerKeyId].publicKey, PayloadOf(rules, q), signature)
    ensures Authentic(config, Snapshot(PayloadOf(rules, q), signature), at) <==>
            q.signerKeyId in config.roots && Covers(config.roots[q.signerKeyId], PayloadOf(rules, q)) &&
              q.issuedAt <= at < q.validUntil
  {
    var p := PayloadOf(rules, q);
    forall i | 0 <= i < |p.authorizations|
      ensures IsVersion(p.authorizations[i].authorizationVersion) && InsideSnapshot(p, p.authorizations[i])
    {
      assert EntryTimely(q, q.entries[i], t.now);
    }
  }

  /** A request is granted the authorization of the entry that names it, and no other. */
  lemma {:induction false} GrantIsTheEntry(rules: Rules, config: Config, q: IssueRequest, i: nat)
    requires WellFormedRequest(rules, q) && i < |q.entries| && config.requestHash == rules.requestHash
    ensures GrantFor(config, PayloadOf(rules, q).authorizations, q.entries[i].request) ==
            Some(AuthorizationOf(rules, q.entries[i]))
  {
    var all := PayloadOf(rules, q).authorizations;
    var request := q.entries[i].request;
    assert all[0] == AuthorizationOf(rules, q.entries[0]);
    if i == 1 {
      assert all[1..][0] == AuthorizationOf(rules, q.entries[1]);
      assert GrantFor(config, all, request) == GrantFor(config, all[1..], request);
    }
  }

  /** An authorization id that is kept moves to a higher version, or keeps its version and hash. */
  ghost predicate KeepsOrRaises(before: Option<Mark>, after: Option<Mark>)
  {
    forall id, v: nat, h, w: nat, g :: before == Some(Mark(id, v, h)) && after == Some(Mark(id, w, g)) ==>
      v < w || (v == w && h == g)
  }

  /** The payload is the next version of what the checkpoint stands for. */
  ghost predicate Succeeds(config: Config, p: Payload, c: Checkpoint)
  {
    && p.supervisorInstanceId == c.supervisorInstanceId
    && p.snapshotVersion == c.snapshotVersion + 1 && p.previousSnapshotHash == Some(c.snapshotHash)
    && KeepsOrRaises(c.client, MarkFor(config, p.authorizations, Client))
    && KeepsOrRaises(c.listener, MarkFor(config, p.authorizations, Listener))
  }

  lemma {:induction false} MarksExactly(before: Option<Mark>, after: Option<Mark>)
    ensures MarkAllowed(before, after) <==> KeepsOrRaises(before, after)
  {
    if before.Some? && after.Some? && before.value.id == after.value.id && KeepsOrRaises(before, after) {
      assert before == Some(Mark(before.value.id, before.value.version, before.value.hash));
      assert after == Some(Mark(before.value.id, after.value.version, after.value.hash));
    }
  }

  lemma {:induction false} JudgedOver(config: Config, p: Payload, c: Checkpoint)
    ensures Judge(config, p, Some(c)) == AlreadyInstalled <==> NextCheckpoint(config, p) == c
    ensures Judge(config, p, Some(c)) == Install <==> Succeeds(config, p, c)
  {
    MarksExactly(c.client, MarkFor(config, p.authorizations, Client));
    MarksExactly(c.listener, MarkFor(config, p.authorizations, Listener));
  }

  /** The stored checkpoint, or none, lets a reader of this payload pass. */
  ghost predicate StoreAdmits(config: Config, p: Payload, stored: Option<Checkpoint>)
  {
    match stored
    case None => p.previousSnapshotHash == None
    case Some(c) => NextCheckpoint(config, p) == c || Succeeds(config, p, c)
  }

  lemma {:induction false} AdmitsExactly(config: Config, p: Payload, stored: Option<Checkpoint>)
    ensures Judge(config, p, stored) != Deny <==> StoreAdmits(config, p, stored)
  {
    if stored.Some? { JudgedOver(config, p, stored.value); }
  }

  /** What the trust source checks outside the store, from authentication at `at` to its last clock reading. */
  predicate Grants(config: Config, s: Snapshot, request: Request, at: int, finishedAt: int, a: Authorization)
  {
    && Authentic(config, s, at) && at <= finishedAt < s.payload.validUntil
    && GrantFor(config, s.payload.authorizations, request) == Some(a) && a.validFrom <= finishedAt < a.validUntil
  }

  /** The steps of a reader that no other reader disturbs. */
  function Alone(request: Request, s: Snapshot, at: int, finishedAt: int): (steps: seq<Step>)
  {
    [Begin(0, request), Authenticate(0, s, at), ReadStore(0), Swap(0, false), Finish(0, finishedAt)]
  }

  /** Over a store that holds `stored`, the trust source answers `a`. */
  predicate Serves(
    config: Config, stored: Option<Checkpoint>, s: Snapshot, request: Request, at: int, finishedAt: int,
    a: Authorization)
  {
    var t := Run(config, Initial(stored), Alone(request, s, at, finishedAt));
    0 in t.readers && t.readers[0] == Reader(request, Granted(s, at, finishedAt, a))
  }

  lemma {:induction false} RunFive(config: Config, s: State, a: Step, b: Step, c: Step, d: Step, e: Step)
    ensures Run(config, s, [a, b, c, d, e]) ==
            Apply(config, Apply(config, Apply(config, Apply(config, Apply(config, s, a), b), c), d), e)
  {
    var steps := [a, b, c, d, e];
    var s1 := Apply(config, s, a);
    var s2 := Apply(config, s1, b);
    var s3 := Apply(config, s2, c);
    var s4 := Apply(config, s3, d);
    assert steps[1..] == [b, c, d, e] && steps[1..][1..] == [c, d, e] && [c, d, e][1..] == [d, e] && [d, e][1..] == [e];
    assert Run(config, s4, [e]) == Apply(config, s4, e) by { assert [e][1..] == []; }
    assert Run(config, s3, [d, e]) == Run(config, s4, [e]);
    assert Run(config, s2, [c, d, e]) == Run(config, s3, [d, e]);
    assert Run(config, s1, [b, c, d, e]) == Run(config, s2, [c, d, e]);
  }

  /**
   * The trust source answers exactly when its own checks allow it and the stored checkpoint does not
   * deny the snapshot.
   */
  lemma {:induction false} ServesExactly(
    config: Config, stored: Option<Checkpoint>, s: Snapshot, request: Request, at: int, finishedAt: int,
    a: Authorization)
    ensures Serves(config, stored, s, request, at, finishedAt, a) <==>
            StoreAdmits(config, s.payload, stored) && Grants(config, s, request, at, finishedAt, a)
  {
    AdmitsExactly(config, s.payload, stored);
    RunFive(config, Initial(stored), Begin(0, request), Authenticate(0, s, at), ReadStore(0), Swap(0, false),
      Finish(0, finishedAt));
    var begun := Apply(config, Initial(stored), Begin(0, request));
    var known := Apply(config, begun, Authenticate(0, s, at));
    var read := Apply(config, known, ReadStore(0));
    var swapped := Apply(config, read, Swap(0, false));
    assert begun.readers[0] == Reader(request, Requested);
    if Authentic(config, s, at) {
      assert known.readers[0] == Reader(request, Authenticated(s, at, 0)) && known.stored == stored;
      if Judge(config, s.payload, stored) != Deny {
        assert swapped.readers[0] == Reader(request, Advanced(s, at));
      } else {
        assert swapped.readers[0] == Reader(request, Denied);
      }
    } else {
      assert swapped.readers[0] == Reader(request, Denied);
    }
  }

  /** The clock never goes back from the controller's last reading to the loader's. */
  predicate Steady(t: Clock, at: int, finishedAt: int, u: Samples)
  {
    t.beforePublish <= at <= finishedAt <= u.before <= u.afterDirectory <= u.beforeOpen <= u.afterLoad
  }

  /** Nobody aborts, and directory and module are as authorized. */
  const FAIR: Weather := Weather(false, false, true, true)

  lemma {:induction false} GrantsExactly(
    rules: Rules, config: Config, q: IssueRequest, approval: Approval, t: Clock, aborts: Aborts, signature: string,
    i: nat, at: int, finishedAt: int, u: Samples, a: Authorization, w: Weather)
    requires MayIssue(rules, q.workspaceId, config.supervisorInstanceId, q, approval, t, aborts)
    requires q.signerKeyId in config.roots ==>
             config.verify(config.roots[q.signerKeyId].publicKey, PayloadOf(rules, q), signature)
    requires i < |q.entries| && config.requestHash == rules.requestHash && Steady(t, at, finishedAt, u)
    ensures var e := q.entries[i];
            Grants(config, Snapshot(PayloadOf(rules, q), signature), e.request, at, finishedAt, a) &&
              Loads(config, e.request, a, u, w)
            <==> a == AuthorizationOf(rules, e) && u.afterLoad < e.validUntil && w == FAIR &&
                 q.signerKeyId in config.roots && Covers(config.roots[q.signerKeyId], PayloadOf(rules, q))
  {
    var e := q.entries[i];
    IssuedIsAuthentic(rules, config, q, approval, t, aborts, signature, at);
    GrantIsTheEntry(rules, config, q, i);
    assert EntryTimely(q, e, t.now);
  }

  /**
   * From issuing to loading on a clock that never goes back: the module is granted and loaded
   * exactly when nothing is aborted, directory and module are as authorized, the root covers the
   * snapshot, the stored checkpoint is its own or its predecessor, and the last sample comes before
   * the entry's end. `stored` is what the reader finds in the store, and no other
   * reader comes between its steps.
   */
  lemma {:induction false} LoadsExactly(
    rules: Rules, config: Config, q: IssueRequest, approval: Approval, t: Clock, aborts: Aborts, signature: string,
    stored: Option<Checkpoint>, i: nat, at: int, finishedAt: int, u: Samples, w: Weather)
    requires MayIssue(rules, q.workspaceId, config.supervisorInstanceId, q, approval, t, aborts)
    requires q.signerKeyId in config.roots ==>
             config.verify(config.roots[q.signerKeyId].publicKey, PayloadOf(rules, q), signature)
    requires i < |q.entries| && config.requestHash == rules.requestHash && Steady(t, at, finishedAt, u)
    ensures var e := q.entries[i];
            (exists a ::
               Serves(config, stored, Snapshot(PayloadOf(rules, q), signature), e.request, at, finishedAt, a) &&
               Loads(config, e.request, a, u, w))
            <==>
              w == FAIR && q.signerKeyId in config.roots &&
              Covers(config.roots[q.signerKeyId], PayloadOf(rules, q)) &&
                 StoreAdmits(config, PayloadOf(rules, q), stored) && u.afterLoad < e.validUntil
  {
    var e := q.entries[i];
    var s := Snapshot(PayloadOf(rules, q), signature);
    forall a
      ensures Serves(config, stored, s, e.request, at, finishedAt, a) && Loads(config, e.request, a, u, w) <==>
              a == AuthorizationOf(rules, e) && u.afterLoad < e.validUntil && w == FAIR &&
              StoreAdmits(config, s.payload, stored) &&
              q.signerKeyId in config.roots && Covers(config.roots[q.signerKeyId], s.payload)
    {
      ServesExactly(config, stored, s, e.request, at, finishedAt, a);
      GrantsExactly(rules, config, q, approval, t, aborts, signature, i, at, finishedAt, u, a, w);
    }
    var mine := AuthorizationOf(rules, e);
    if w == FAIR && u.afterLoad < e.validUntil && StoreAdmits(config, s.payload, stored) &&
       q.signerKeyId in config.roots && Covers(config.roots[q.signerKeyId], s.payload) {
      assert Serves(config, stored, s, e.request, at, finishedAt, mine) && Loads(config, e.request, mine, u, w);
    }
  }

  /**
   * The controller looks at its own and the approval's window again before it publishes, but at
   * neither the entries' windows nor the checkpoint: over a store, a published module can be loaded
   * on a steady clock exactly when its entry is live then and the store does not deny the snapshot.
   */
  lemma {:induction false} LoadableExactly(
    rules: Rules, config: Config, q: IssueRequest, approval: Approval, t: Clock, aborts: Aborts, signature: string,
    stored: Option<Checkpoint>, i: nat)
    requires MayIssue(rules, q.workspaceId, config.supervisorInstanceId, q, approval, t, aborts)
    requires q.signerKeyId in config.roots && Covers(config.roots[q.signerKeyId], PayloadOf(rules, q))
    requires config.verify(config.roots[q.signerKeyId].publicKey, PayloadOf(rules, q), signature)
    requires i < |q.entries| && config.requestHash == rules.requestHash
    ensures (exists at, finishedAt, u, a :: Steady(t, at, finishedAt, u) &&
               Serves(config, stored, Snapshot(PayloadOf(rules, q), signature),
                      q.entries[i].request, at, finishedAt, a) &&
               Loads(config, q.entries[i].request, a, u, FAIR))
            <==> t.beforePublish < q.entries[i].validUntil && StoreAdmits(config, PayloadOf(rules, q), stored)
  {
    var e := q.entries[i];
    var s := Snapshot(PayloadOf(rules, q), signature);
    var now := t.beforePublish;
    forall at, finishedAt, u, a | Steady(t, at, finishedAt, u) &&
      Serves(config, stored, s, e.request, at, finishedAt, a) &&
                                  Loads(config, e.request, a, u, FAIR)
      ensures now < e.validUntil && StoreAdmits(config, s.payload, stored)
    {
      LoadsExactly(rules, config, q, approval, t, aborts, signature, stored, i, at, finishedAt, u,
        FAIR);
    }
    if now < e.validUntil && StoreAdmits(config, s.payload, stored) {
      LoadsExactly(rules, config, q, approval, t, aborts, signature, stored, i, now, now, Samples(now, now, now, now),
        FAIR);
      assert Steady(t, now, now, Samples(now, now, now, now));
    }
  }

  /**
   * Among any readers, in every interleaving: whoever is granted an issued snapshot and loads has a
   * covering root and a live entry.
   */
  lemma {:induction false} EveryLoadIsLive(
    rules: Rules, config: Config, q: IssueRequest, approval: Approval, t: Clock, aborts: Aborts, signature: string,
    stored: Option<Checkpoint>, steps: seq<Step>, r: nat, i: nat, u: Samples, w: Weather)
    requires MayIssue(rules, q.workspaceId, config.supervisorInstanceId, q, approval, t, aborts)
    requires q.signerKeyId in config.roots ==>
             config.verify(config.roots[q.signerKeyId].publicKey, PayloadOf(rules, q), signature)
    requires i < |q.entries| && config.requestHash == rules.requestHash
    requires var s := Run(config, Initial(stored), steps);
             && r in s.readers && s.readers[r].request == q.entries[i].request && s.readers[r].phase.Granted?
             && s.readers[r].phase.snapshot == Snapshot(PayloadOf(rules, q), signature)
             && Steady(t, s.readers[r].phase.at, s.readers[r].phase.finishedAt, u)
             && Loads(config, s.readers[r].request, s.readers[r].phase.authorization, u, w)
    ensures q.signerKeyId in config.roots && Covers(config.roots[q.signerKeyId], PayloadOf(rules, q))
    ensures u.afterLoad < q.entries[i].validUntil
    ensures NextCheckpoint(config, PayloadOf(rules, q)) in Run(config, Initial(stored), steps).chain
  {
    OneChain(config, stored, steps);
    var s := Run(config, Initial(stored), steps);
    assert ReaderInvariant(config, s.stored, s.chain, s.readers[r]);
    var Granted(snapshot, at, finishedAt, a) := s.readers[r].phase;
    GrantsExactly(rules, config, q, approval, t, aborts, signature, i, at, finishedAt, u, a, w);
  }

  // ----- what is published and cannot be used -----

  /** Some checkpoint lets a snapshot be installed exactly when it names no predecessor or is not the first version. */
  lemma {:induction false} InstallableExactly(config: Config, p: Payload)
    requires IsVersion(p.snapshotVersion)
    ensures (exists stored: Option<Checkpoint> ::
               (stored.Some? ==> IsVersion(stored.value.snapshotVersion)) && Judge(config, p, stored) == Install)
            <==> p.previousSnapshotHash.None? || p.snapshotVersion > 1
  {
    if p.previousSnapshotHash.None? {
      assert Judge(config, p, None) == Install;
    } else if p.snapshotVersion > 1 {
      var before := Checkpoint(p.supervisorInstanceId, p.signerKeyId, "", p.snapshotVersion - 1,
        p.previousSnapshotHash.value, None, None);
      assert IsVersion(Some(before).value.snapshotVersion) && Judge(config, p, Some(before)) == Install;
    }
  }

  /** One module, valid from 0 to `until`, in a snapshot valid from 0 to 100. */
  function SampleRequest(request: Request, previous: Option<Hash>, until: int): IssueRequest
  {
    IssueRequest("w", "s", "n", 1, "k", previous, 0, 100, [Entry("w", "s", request, "a", 1, 0, until, "")])
  }

  function SampleApproval(rules: Rules, q: IssueRequest): Approval
  {
    Approval(AuthorityAsked(rules, q), rules.authorityHash(AuthorityAsked(rules, q)), 3, 0, 100)
  }

  const SAMPLE_CLOCK: Clock := Clock(5, 10, 30)

  lemma {:induction false} SampleIsIssued(rules: Rules, request: Request, previous: Option<Hash>, until: int)
    requires 10 < until <= 100
    requires var e := SampleRequest(request, previous, until).entries[0]; rules.valid(AuthorizationOf(rules, e))
    ensures var q := SampleRequest(request, previous, until);
            MayIssue(rules, "w", "s", q, SampleApproval(rules, q), SAMPLE_CLOCK, Aborts(false, false, false))
  {
  }

  /** A concrete issuance whose only module expires while the signer is at work: no reader of any run can load it. */
  lemma {:induction false} ExpiredEntryIsPublished(
    rules: Rules, config: Config, request: Request, signature: string, stored: Option<Checkpoint>, steps: seq<Step>,
    r: nat, u: Samples)
    requires config.requestHash == rules.requestHash && config.supervisorInstanceId == "s"
    requires var q := SampleRequest(request, None, 20);
             && rules.valid(AuthorizationOf(rules, q.entries[0]))
             && ("k" in config.roots ==> config.verify(config.roots["k"].publicKey, PayloadOf(rules, q), signature))
    requires var s := Run(config, Initial(stored), steps);
             && r in s.readers && s.readers[r].request == request && s.readers[r].phase.Granted?
             && s.readers[r].phase.snapshot == Snapshot(PayloadOf(rules, SampleRequest(request, None, 20)), signature)
             && Steady(SAMPLE_CLOCK, s.readers[r].phase.at, s.readers[r].phase.finishedAt, u)
    ensures var q := SampleRequest(request, None, 20);
            MayIssue(rules, "w", "s", q, SampleApproval(rules, q), SAMPLE_CLOCK, Aborts(false, false, false))
    ensures !Loads(config, request, Run(config, Initial(stored), steps).readers[r].phase.authorization, u, FAIR)
  {
    var q := SampleRequest(request, None, 20);
    SampleIsIssued(rules, request, None, 20);
    if Loads(config, request, Run(config, Initial(stored), steps).readers[r].phase.authorization, u, FAIR) {
      EveryLoadIsLive(rules, config, q, SampleApproval(rules, q), SAMPLE_CLOCK, Aborts(false, false, false), signature,
                      stored, steps, r, 0, u, FAIR);
    }
  }

  /**
   * A concrete issuance of a first version that names a predecessor: no stored checkpoint ever lets it
   * be installed.
   */
  lemma {:induction false} OrphanIsPublished(
    rules: Rules, config: Config, request: Request, previous: Hash, stored: Option<Checkpoint>)
    requires rules.valid(AuthorizationOf(rules, SampleRequest(request, Some(previous), 100).entries[0]))
    requires stored.Some? ==> IsVersion(stored.value.snapshotVersion)
    ensures var q := SampleRequest(request, Some(previous), 100);
            && MayIssue(rules, "w", "s", q, SampleApproval(rules, q), SAMPLE_CLOCK, Aborts(false, false, false))
            && Judge(config, PayloadOf(rules, q), stored) != Install
  {
    SampleIsIssued(rules, request, Some(previous), 100);
    InstallableExactly(config, PayloadOf(rules, SampleRequest(request, Some(previous), 100)));
  }
}
