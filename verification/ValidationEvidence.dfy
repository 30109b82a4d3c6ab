/**
 * The JSON validation run and the adapter together: every run's evidence is accepted, and what is
 * delivered is recorded.
 */
module ValidationEvidence {
  import opened Outcomes
  import opened Texts
  import opened Json
  import opened AppServerMessages
  import opened AppServerSession
  import Runner = ProtocolRunner
  import Validation = ValidationRun
  import Adapter = RuntimeAdapter

  /** The hash writes 64 hexadecimal digits, and the adapter's constants are the hashes of the empty lists. */
  ghost predicate SameHashes(host: Adapter.Host, rules: Rules)
  {
    && (forall t :: IsDigest(rules.sha256(t)))
    && Validation.ListHash(rules, Validation.PROGRESS_DOMAIN, []) == Some(host.emptyProgressHash)
    && Validation.ListHash(rules, Validation.TOKEN_DOMAIN, []) == Some(host.emptyTokenHash)
  }

  lemma {:induction false} SessionReferenceIsAccepted(t: Text)
    requires IsReference(t)
    ensures IsSafeReference(t)
  {
  }

  /** A terminal message is read only for a thread and a turn whose ids are references. */
  lemma {:induction false} TerminalNames(m: Json, threadId: Option<Text>, turnId: Option<Text>)
    requires TerminalStatus(m, threadId, turnId).Some?
    ensures threadId.Some? && IsReference(threadId.value) && turnId.Some? && IsReference(turnId.value)
  {
  }

  lemma {:induction false} TerminalReadings(
    host: Adapter.Host, rules: Rules, m: Json, threadId: Option<Text>, turnId: Option<Text>)
    requires SameHashes(host, rules) && JsonReader(rules).terminal(m, threadId, turnId).Some?
    ensures IsDigest(JsonReader(rules).terminal(m, threadId, turnId).value.hash)
    ensures Adapter.Refers(threadId) && Adapter.Refers(turnId)
  {
    TerminalNames(m, threadId, turnId);
    SessionReferenceIsAccepted(threadId.value);
    SessionReferenceIsAccepted(turnId.value);
  }

  lemma {:induction false} ListHashIsDigest(host: Adapter.Host, rules: Rules, domain: Text, hashes: seq<Text>)
    requires SameHashes(host, rules) && Validation.ListHash(rules, domain, hashes).Some?
    ensures IsDigest(Validation.ListHash(rules, domain, hashes).value)
  {
  }

  lemma {:induction false} InterruptReadings(host: Adapter.Host, rules: Rules, m: Json, id: Option<int>)
    requires SameHashes(host, rules) && InterruptResponse(rules, m, id).Some?
    ensures IsDigest(InterruptResponse(rules, m, id).value)
  {
  }

  lemma {:induction false} JsonWireAgrees(host: Adapter.Host, rules: Rules, challenge: Text, dispatchId: Text)
    requires SameHashes(host, rules)
    ensures Adapter.Agrees(host, Validation.JsonWire(rules, challenge, dispatchId))
  {
    var wire := Validation.JsonWire(rules, challenge, dispatchId);
    forall hs | wire.progressHash(hs).Some? ensures IsDigest(wire.progressHash(hs).value) {
      ListHashIsDigest(host, rules, Validation.PROGRESS_DOMAIN, hs);
    }
    forall hs | wire.tokenHash(hs).Some? ensures IsDigest(wire.tokenHash(hs).value) {
      ListHashIsDigest(host, rules, Validation.TOKEN_DOMAIN, hs);
    }
    forall m, id | wire.reader.interrupt(m, id).Some? ensures IsDigest(wire.reader.interrupt(m, id).value) {
      InterruptReadings(host, rules, m, id);
    }
    forall m, threadId, turnId | wire.reader.terminal(m, threadId, turnId).Some?
      ensures IsDigest(wire.reader.terminal(m, threadId, turnId).value.hash) && Adapter.Refers(threadId) &&
              Adapter.Refers(turnId)
    {
      TerminalReadings(host, rules, m, threadId, turnId);
    }
  }

  /** Every evidence value a validation run returns passes the adapter's check. */
  lemma {:induction false} EveryRunIsAccepted(
    host: Adapter.Host, rules: Rules, challenge: Text, dispatchId: Text, deadline: int, events: seq<Runner.Event<Json>>)
    requires SameHashes(host, rules)
    ensures var wire := Validation.JsonWire(rules, challenge, dispatchId);
            match Runner.Run(wire, deadline, Runner.Start(wire), events).stage
            case Over(Returned(e)) => Adapter.TerminalAllowed(host, e)
            case _ => true
  {
    JsonWireAgrees(host, rules, challenge, dispatchId);
    Adapter.RunnerEvidenceIsAccepted(host, Validation.JsonWire(rules, challenge, dispatchId), deadline, events);
  }
}
