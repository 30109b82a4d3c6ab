/** What the trust source answers over a stored checkpoint, in terms of the snapshot and the checkpoint alone. */
module TrustAnswers {
  import opened Outcomes
  import opened ModuleAuthorization
  import opened CheckpointProtocol
  import opened SnapshotIssuing

  // ----- one reader over a store -----

  /** What a lone reader leaves in the store. */
  lemma {:induction false} StoreAfter(
    config: Config, stored: Option<Checkpoint>, s: Snapshot, request: Request, at: int, finishedAt: int)
    requires Authentic(config, s, at) && Judge(config, s.payload, stored) != Deny
    ensures var t := Run(config, Initial(stored), Alone(request, s, at, finishedAt));
            if Judge(config, s.payload, stored) == AlreadyInstalled
            then t.stored == stored && t.chain == Initial(stored).chain
            else t.stored == Some(NextCheckpoint(config, s.payload)) &&
                 t.chain == Initial(stored).chain + [NextCheckpoint(config, s.payload)]
  {
    RunFive(config, Initial(stored), Begin(0, request), Authenticate(0, s, at), ReadStore(0), Swap(0, false),
      Finish(0, finishedAt));
    var begun := Apply(config, Initial(stored), Begin(0, request));
    var known := Apply(config, begun, Authenticate(0, s, at));
    var read := Apply(config, known, ReadStore(0));
    var swapped := Apply(config, read, Swap(0, false));
    assert begun.readers[0] == Reader(request, Requested);
    assert known.readers[0] == Reader(request, Authenticated(s, at, 0)) && known.stored == stored;
    assert swapped.readers[0] == Reader(request, CheckpointProtocol.Advanced(s, at));
  }

  /**
   * Over a stored checkpoint a lone reader is served exactly when its own checks pass and the snapshot
   * either is the one the checkpoint stands for, and the store stays, or succeeds it, and the store
   * then holds the snapshot's own checkpoint.
   */
  lemma {:induction false} ServedOverCheckpoint(
    config: Config, c: Checkpoint, s: Snapshot, request: Request, at: int, finishedAt: int, a: Authorization)
    ensures Serves(config, Some(c), s, request, at, finishedAt, a) <==>
            Grants(config, s, request, at, finishedAt, a) &&
            (NextCheckpoint(config, s.payload) == c || Succeeds(config, s.payload, c))
    ensures Serves(config, Some(c), s, request, at, finishedAt, a) ==>
              var t := Run(config, Initial(Some(c)), Alone(request, s, at, finishedAt));
              && t.stored == Some(NextCheckpoint(config, s.payload))
              && t.chain == if NextCheckpoint(config, s.payload) == c then [c]
                 else [c, NextCheckpoint(config, s.payload)]
  {
    JudgedOver(config, s.payload, c);
    ServesExactly(config, Some(c), s, request, at, finishedAt, a);
    if Serves(config, Some(c), s, request, at, finishedAt, a) {
      StoreAfter(config, Some(c), s, request, at, finishedAt);
      assert [c] + [NextCheckpoint(config, s.payload)] == [c, NextCheckpoint(config, s.payload)];
    }
  }

  /** Over an empty store it is served exactly when its own checks pass and the snapshot names no predecessor. */
  lemma {:induction false} ServedOverNothing(
    config: Config, s: Snapshot, request: Request, at: int, finishedAt: int, a: Authorization)
    ensures Serves(config, None, s, request, at, finishedAt, a) <==>
            Grants(config, s, request, at, finishedAt, a) && s.payload.previousSnapshotHash == None
    ensures Serves(config, None, s, request, at, finishedAt, a) ==>
              var t := Run(config, Initial(None), Alone(request, s, at, finishedAt));
              t.stored == Some(NextCheckpoint(config, s.payload)) && t.chain == [NextCheckpoint(config, s.payload)]
  {
    ServesExactly(config, None, s, request, at, finishedAt, a);
    if Serves(config, None, s, request, at, finishedAt, a) {
      StoreAfter(config, None, s, request, at, finishedAt);
      assert [] + [NextCheckpoint(config, s.payload)] == [NextCheckpoint(config, s.payload)];
    }
  }

  // ----- again, while the store stands -----

  lemma {:induction false} StandsAndAnswers(
    config: Config, s: State, q: nat, snapshot: Snapshot, request: Request, at: int, finishedAt: int, a: Authorization)
    requires q !in s.readers && s.stored == Some(NextCheckpoint(config, snapshot.payload))
    requires Grants(config, snapshot, request, at, finishedAt, a)
    ensures var t := Run(config, s, [Begin(q, request), Authenticate(q, snapshot, at), ReadStore(q), Swap(q, false),
                                     Finish(q, finishedAt)]);
            && q in t.readers && t.readers[q] == Reader(request, Granted(snapshot, at, finishedAt, a))
            && t.stored == s.stored && t.chain == s.chain
  {
    RunFive(config, s, Begin(q, request), Authenticate(q, snapshot, at), ReadStore(q), Swap(q, false),
      Finish(q, finishedAt));
    JudgedOver(config, snapshot.payload, NextCheckpoint(config, snapshot.payload));
    var begun := Apply(config, s, Begin(q, request));
    var known := Apply(config, begun, Authenticate(q, snapshot, at));
    var read := Apply(config, known, ReadStore(q));
    var swapped := Apply(config, read, Swap(q, false));
    assert begun.readers[q] == Reader(request, Requested);
    assert known.readers[q] == Reader(request, Authenticated(snapshot, at, 0)) && known.stored == s.stored;
    assert swapped.readers[q] == Reader(request, CheckpointProtocol.Advanced(snapshot, at));
  }

  /**
   * In every run: whoever was granted an authorization is granted it again by a new reader, as long as
   * the store still holds the snapshot's checkpoint and the new samples lie in its windows.
   */
  lemma {:induction false} GrantedAgain(
    config: Config, stored: Option<Checkpoint>, steps: seq<Step>, r: nat, q: nat, at: int, finishedAt: int)
    requires var s := Run(config, Initial(stored), steps);
             && r in s.readers && s.readers[r].phase.Granted? && q !in s.readers
             && s.stored == Some(NextCheckpoint(config, s.readers[r].phase.snapshot.payload))
             && Authentic(config, s.readers[r].phase.snapshot, at)
             && at <= finishedAt < s.readers[r].phase.snapshot.payload.validUntil
             && s.readers[r].phase.authorization.validFrom <= finishedAt < s.readers[r].phase.authorization.validUntil
    ensures var s := Run(config, Initial(stored), steps);
            var Granted(snapshot, _, _, a) := s.readers[r].phase;
            var t := Run(config, s, [Begin(q, s.readers[r].request), Authenticate(q, snapshot, at), ReadStore(q),
                                     Swap(q, false), Finish(q, finishedAt)]);
            && q in t.readers && t.readers[q] == Reader(s.readers[r].request, Granted(snapshot, at, finishedAt, a))
            && t.stored == s.stored && t.chain == s.chain
  {
    OneChain(config, stored, steps);
    var s := Run(config, Initial(stored), steps);
    assert ReaderInvariant(config, s.stored, s.chain, s.readers[r]);
    var Granted(snapshot, _, _, a) := s.readers[r].phase;
    StandsAndAnswers(config, s, q, snapshot, s.readers[r].request, at, finishedAt, a);
  }

  // ----- what a grant has passed -----

  /**
   * In every run, whoever is granted an authorization: its snapshot names a configured root and this
   * instance, its signature verifies under the root's key, the root admits its version and spans its
   * window of at most five minutes, no revocation comes before either, and the authorization lies in
   * the snapshot, answers the very request and is valid at the reader's last sample.
   */
  lemma {:induction false} EveryGrantIsVerified(config: Config, stored: Option<Checkpoint>, steps: seq<Step>, r: nat)
    requires var s := Run(config, Initial(stored), steps); r in s.readers && s.readers[r].phase.Granted?
    ensures var s := Run(config, Initial(stored), steps);
            var Granted(snapshot, at, finishedAt, a) := s.readers[r].phase;
            var p := snapshot.payload;
            && p.supervisorInstanceId == config.supervisorInstanceId && p.signerKeyId in config.roots
            && var root := config.roots[p.signerKeyId];
            && config.verify(root.publicKey, p, snapshot.signature)
            && 1 <= p.snapshotVersion <= 1_000_000 && root.minimumSnapshotVersion <= p.snapshotVersion
            && p.issuedAt <= at <= finishedAt < p.validUntil <= p.issuedAt + 300_000
            && root.validFrom <= p.issuedAt && p.validUntil <= root.validUntil
            && (root.revokedAt.Some? ==> p.validUntil <= root.revokedAt.value)
            && a in p.authorizations && a.request == s.readers[r].request
            && a.requestHash == config.requestHash(s.readers[r].request)
            && p.issuedAt <= a.validFrom <= finishedAt < a.validUntil <= p.validUntil
  {
    OneChain(config, stored, steps);
    var s := Run(config, Initial(stored), steps);
    assert ReaderInvariant(config, s.stored, s.chain, s.readers[r]);
    var Granted(snapshot, at, finishedAt, a) := s.readers[r].phase;
    var p := snapshot.payload;
    var i :| 0 <= i < |p.authorizations| && p.authorizations[i] == a;
    assert InsideSnapshot(p, p.authorizations[i]);
  }

  lemma {:induction false} FirstOfKind(config: Config, all: seq<Authorization>, kind: ModuleKind)
    ensures MarkFor(config, all, kind) == None <==> forall i :: 0 <= i < |all| ==> all[i].request.moduleKind != kind
    decreases |all|
  {
    if all != [] {
      FirstOfKind(config, all[1..], kind);
      assert all == [all[0]] + all[1..];
    }
  }

  /**
   * A checkpoint keeps the snapshot's names, version and hash, and of each kind the id, version and
   * hash of the snapshot's authorization of that kind, or nothing if there is none.
   */
  lemma {:induction false} CheckpointKeeps(config: Config, p: Payload, kind: ModuleKind, i: nat)
    requires WellFormedPayload(p)
    ensures var c := NextCheckpoint(config, p);
            && c.supervisorInstanceId == p.supervisorInstanceId && c.signerKeyId == p.signerKeyId
            && c.snapshotId == p.snapshotId && c.snapshotVersion == p.snapshotVersion
            && c.snapshotHash == config.payloadHash(p)
    ensures MarkOf(NextCheckpoint(config, p), kind) == None <==>
            forall j :: 0 <= j < |p.authorizations| ==> p.authorizations[j].request.moduleKind != kind
    ensures i < |p.authorizations| && p.authorizations[i].request.moduleKind == kind ==>
            MarkOf(NextCheckpoint(config, p), kind) ==
            Some(Mark(p.authorizations[i].authorizationId, p.authorizations[i].authorizationVersion,
                      config.authorizationHash(p.authorizations[i])))
  {
    FirstOfKind(config, p.authorizations, kind);
    if i == 1 && |p.authorizations| == 2 { assert p.authorizations[1..][0] == p.authorizations[1]; }
  }
}
