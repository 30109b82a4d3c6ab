/** What accepted messages say, field by field: bridge envelopes, app-server messages and progress. */
module MessageFacts {
  import opened Outcomes
  import opened Texts
  import opened Json
  import opened Canonical
  import opened PayloadWalk
  import opened AppServerMessages
  import Session = AppServerSession
  import Codec = BridgeCodec
  import Runner = ProtocolRunner
  import Validation = ValidationRun
  import RunOutcomes

  /** The field holds a text of this kind. */
  ghost predicate Holds(v: Json, key: Text, kind: Text -> bool)
  {
    exists s: Text :: Field(v, key) == Some(String(s)) && kind(s)
  }

  predicate Says(v: Json, key: Text, s: Text) { Field(v, key) == Some(String(s)) }

  // ----- bridge envelopes -----

  /** Issued and expiring at canonical timestamps, at most five minutes apart. */
  ghost predicate LivesBriefly(rules: Codec.Rules, v: Json)
  {
    exists issued: Text, expires: Text, from: int, until: int ::
      && Says(v, Codec.ISSUED_AT, issued) && rules.instant(issued) == Some(from)
      && Says(v, Codec.EXPIRES_AT, expires) && rules.instant(expires) == Some(until)
      && from < until && until - from <= 300_000
  }

  /** The field holds a safe reference that is not sensitive. */
  ghost predicate NamesSafely(rules: Codec.Rules, v: Json, key: Text)
  {
    exists s: Text :: Says(v, key, s) && IsSafeReference(s) && !rules.sensitive(s)
  }

  /** What an envelope has to hold, and nothing else. */
  ghost predicate IsEnvelope(rules: Codec.Rules, v: Json)
  {
    && v.Object? && Keys(Sort(v.members)) == Codec.ENVELOPE_KEYS
    && Says(v, Codec.PROTOCOL_VERSION, Codec.BRIDGE_VERSION)
    && (forall key :: key in Codec.REFERENCE_FIELDS ==> NamesSafely(rules, v, key))
    && (exists n: int :: Field(v, Codec.SEQUENCE) == Some(Integer(n)) && 1 <= n <= 9_007_199_254_740_991)
    && Holds(v, Codec.TYPE, (s: Text) => s in Codec.TYPES)
    && LivesBriefly(rules, v)
    && Holds(v, Codec.PAYLOAD_DIGEST, (s: Text) => IsDigest(s))
    && Holds(v, Codec.MAC, (s: Text) => Codec.IsMac(s))
    && exists p: Json :: Field(v, Codec.PAYLOAD) == Some(p) && Canonicalize(rules.sensitive, p).Some?
  }

  lemma {:induction false} ReferencesExactly(rules: Codec.Rules, v: Json)
    ensures (forall i :: 0 <= i < |Codec.REFERENCE_FIELDS| ==>
            Codec.HasReference(rules, v, Codec.REFERENCE_FIELDS[i])) <==>
            (forall key :: key in Codec.REFERENCE_FIELDS ==> NamesSafely(rules, v, key))
  {
    var keys := Codec.REFERENCE_FIELDS;
    forall key ensures Codec.HasReference(rules, v, key) <==> NamesSafely(rules, v, key) {
      if Codec.HasReference(rules, v, key) { assert Says(v, key, StringField(v, key).value); }
    }
    if forall key :: key in keys ==> NamesSafely(rules, v, key) {
      forall i | 0 <= i < |keys| ensures Codec.HasReference(rules, v, keys[i]) { assert keys[i] in keys; }
    }
  }

  lemma {:induction false} LifetimeExactly(rules: Codec.Rules, v: Json)
    ensures Codec.HasLifetime(rules, v) <==> LivesBriefly(rules, v)
  {
    if Codec.HasLifetime(rules, v) {
      var issued, expires := StringField(v, Codec.ISSUED_AT).value, StringField(v, Codec.EXPIRES_AT).value;
      assert Says(v, Codec.ISSUED_AT, issued) && Says(v, Codec.EXPIRES_AT, expires);
    }
  }

  lemma {:induction false} HoldsExactly(v: Json, key: Text, kind: Text -> bool)
    ensures Holds(v, key, kind) <==> StringField(v, key).Some? && kind(StringField(v, key).value)
  {
  }

  lemma {:induction false} SequenceExactly(v: Json)
    ensures Codec.SequenceOf(v).Some? <==>
            exists n: int :: Field(v, Codec.SEQUENCE) == Some(Integer(n)) && 1 <= n <= 9_007_199_254_740_991
  {
  }

  lemma {:induction false} EnvelopeExactly(rules: Codec.Rules, v: Json)
    ensures Codec.ValidEnvelope(rules, v) <==> IsEnvelope(rules, v)
  {
    ReferencesExactly(rules, v);
    LifetimeExactly(rules, v);
    SequenceExactly(v);
    HoldsExactly(v, Codec.TYPE, (s: Text) => s in Codec.TYPES);
    HoldsExactly(v, Codec.PAYLOAD_DIGEST, (s: Text) => IsDigest(s));
    HoldsExactly(v, Codec.MAC, (s: Text) => Codec.IsMac(s));
  }

  /**
   * A line can be made of a value exactly when it is an envelope whose canonical text, with its
   * newline, has at most 65536 bytes.
   */
  lemma {:induction false} EncodesExactly(rules: Codec.Rules, v: Json)
    ensures Codec.Encode(rules, v).Some? <==>
            && IsEnvelope(rules, v) && CanonicalJson(rules.sensitive, v).Some?
            && |Utf8(CanonicalJson(rules.sensitive, v).value + [NEWLINE])| <= 65_536
  {
    EnvelopeExactly(rules, v);
  }

  // ----- app-server messages -----

  /** The message answers this request, and this is its result. */
  predicate Answers(m: Json, id: int, result: Json)
  {
    && m.Object? && |m.members| == 2 && 1 <= id <= 9_007_199_254_740_991
    && Field(m, ID) == Some(Integer(id)) && Field(m, RESULT) == Some(result)
  }

  lemma {:induction false} AnswersExactly(m: Json, id: int, result: Json)
    ensures ResultOf(m, Some(id)) == Some(result) <==> Answers(m, id, result)
  {
    TwoKeys(m, ID, RESULT);
  }

  lemma {:induction false} TwoKeys(v: Json, a: Text, b: Text)
    ensures Exact(v, [a, b]) <==> v.Object? && |v.members| == 2 && Field(v, a).Some? && Field(v, b).Some?
  {
    var keys := [a, b];
    assert keys[0] == a && keys[1] == b;
    if v.Object? && Find(v.members, a).Some? && Find(v.members, b).Some? {
      assert forall i :: 0 <= i < 2 ==> Find(v.members, keys[i]).Some?;
    }
  }

  /** The sandbox only reads, and has no network. */
  predicate ReadsOnly(sandbox: Json)
  {
    && sandbox.Object? && |sandbox.members| == 2
    && Says(sandbox, Ascii("type"), Ascii("readOnly")) && Field(sandbox, Ascii("networkAccess")) == Some(Bool(false))
  }

  /** A thread with this id that asks for no approval, only reads, is offline, not kept, and empty. */
  ghost predicate IsConfinedThread(result: Json, id: Text)
  {
    exists thread: Json, sandbox: Json ::
      && Exact(result, THREAD_RESULT_KEYS) && Field(result, THREAD) == Some(thread) && Exact(thread, THREAD_KEYS)
      && Says(result, Ascii("approvalPolicy"), Ascii("never"))
      && Field(result, Ascii("sandbox")) == Some(sandbox) && ReadsOnly(sandbox)
      && Field(thread, Ascii("ephemeral")) == Some(Bool(true)) && Field(thread, Ascii("turns")) == Some(Array([]))
      && Says(thread, ID, id) && IsReference(id)
  }

  lemma {:induction false} ExactFinds(v: Json, keys: seq<Text>, i: nat)
    requires Exact(v, keys) && i < |keys|
    ensures Field(v, keys[i]).Some?
  {
  }

  lemma {:induction false} FullThreadNamesModel(result: Json)
    requires Exact(result, THREAD_RESULT_KEYS)
    ensures Field(result, MODEL).Some?
  {
    ExactFinds(result, THREAD_RESULT_KEYS, 1);
  }

  lemma {:induction false} ConfinedExactly(sandbox: Json)
    ensures Confined(sandbox) <==> ReadsOnly(sandbox)
  {
    TwoKeys(sandbox, Ascii("type"), Ascii("networkAccess"));
  }

  /**
   * A thread response is taken as restricted, with an id, exactly when it answers the request with a
   * confined thread.
   */
  lemma {:induction false} ThreadExactly(m: Json, request: int, id: Text)
    ensures ThreadResponse(m, Some(request)) == Some(ThreadReading(true, Some(id))) <==>
            exists result: Json :: Answers(m, request, result) && IsConfinedThread(result, id)
  {
    if ResultOf(m, Some(request)).Some? {
      var result := ResultOf(m, Some(request)).value;
      AnswersExactly(m, request, result);
      ThreadResultExactly(result, id);
    }
    if result: Json :| Answers(m, request, result) && IsConfinedThread(result, id) {
      AnswersExactly(m, request, result);
      ThreadResultExactly(result, id);
    }
  }

  lemma {:induction false} ThreadResultExactly(result: Json, id: Text)
    ensures ThreadResult(result) == Some(ThreadReading(true, Some(id))) <==> IsConfinedThread(result, id)
  {
    if Exact(result, THREAD_RESULT_KEYS) { FullThreadNamesModel(result); }
    if Field(result, Ascii("sandbox")).Some? { ConfinedExactly(Field(result, Ascii("sandbox")).value); }
    if Exact(result, [THREAD]) { OneKey(result, MODEL); }
  }

  lemma {:induction false} OneKey(v: Json, other: Text)
    requires Exact(v, [THREAD]) && other != THREAD
    ensures Field(v, other).None?
  {
    var keys := [THREAD];
    assert keys[0] == THREAD && Find(v.members, keys[0]).Some?;
    var rest := v.members[1..];
    assert |rest| == 0 && Find(rest, other) == None && Find(rest, THREAD) == None;
    assert v.members[0].key == THREAD;
  }

  /** A fresh turn with this id: in progress, no items and no error. */
  ghost predicate IsFreshTurn(result: Json, id: Text)
  {
    exists turn: Json ::
      && result.Object? && |result.members| == 1 && Field(result, TURN) == Some(turn) && IsTurn(turn)
      && Says(turn, STATUS, Ascii("inProgress")) && Field(turn, ITEMS) == Some(Array([])) &&
         Field(turn, ERROR) == Some(Null)
      && Says(turn, ID, id) && IsReference(id)
  }

  lemma {:induction false} SoleKey(v: Json, a: Text)
    ensures Exact(v, [a]) <==> v.Object? && |v.members| == 1 && Field(v, a).Some?
  {
    var keys := [a];
    assert keys[0] == a;
    if v.Object? && Find(v.members, a).Some? { assert forall i :: 0 <= i < 1 ==> Find(v.members, keys[i]).Some?; }
  }

  /** A turn response gives a turn id exactly when it answers the request with a fresh turn of that id. */
  lemma {:induction false} TurnExactly(m: Json, request: int, id: Text)
    ensures TurnResponse(m, Some(request)) == Some(id) <==>
            exists result: Json :: Answers(m, request, result) && IsFreshTurn(result, id)
  {
    if ResultOf(m, Some(request)).Some? {
      AnswersExactly(m, request, ResultOf(m, Some(request)).value);
      SoleKey(ResultOf(m, Some(request)).value, TURN);
    }
    if result: Json :| Answers(m, request, result) && IsFreshTurn(result, id) {
      AnswersExactly(m, request, result);
      SoleKey(result, TURN);
    }
  }

  /** An interrupt is acknowledged exactly by an empty result for its request, under the hash of the whole message. */
  lemma {:induction false} InterruptExactly(rules: Rules, m: Json, request: int, hash: Text)
    ensures InterruptResponse(rules, m, Some(request)) == Some(hash) <==>
            && Answers(m, request, Object([]))
            && exists t: Text :: CanonicalJson(rules.sensitive, m) == Some(t) && hash == rules.sha256(t)
  {
    AnswersExactly(m, request, Object([]));
  }

  /** A text of at most this length without control characters. */
  ghost predicate NamesShortly(rules: Rules, v: Json, key: Text, most: nat)
  {
    exists s: Text :: Says(v, key, s) && 1 <= |s| <= most && !rules.control(s)
  }

  ghost predicate NamesReference(v: Json, key: Text) { exists s: Text :: Says(v, key, s) && IsReference(s) }

  /** An agent that names itself and its platform, and maybe its home. */
  ghost predicate NamesAgent(rules: Rules, result: Json)
  {
    && (Exact(result, INITIALIZE_KEYS) || Exact(result, INITIALIZE_KEYS + [CODEX_HOME]))
    && NamesShortly(rules, result, Ascii("userAgent"), 256)
    && (Field(result, CODEX_HOME) == None || NamesShortly(rules, result, CODEX_HOME, 4_096))
    && NamesReference(result, Ascii("platformFamily")) && NamesReference(result, Ascii("platformOs"))
  }

  lemma {:induction false} ShortlyExactly(rules: Rules, v: Json, key: Text, most: nat)
    ensures ShortText(rules, v, key, most) <==> NamesShortly(rules, v, key, most)
  {
  }

  lemma {:induction false} ReferenceExactly(v: Json, key: Text)
    ensures ReferenceField(v, key).Some? <==> NamesReference(v, key)
  {
  }

  lemma {:induction false} AgentExactly(rules: Rules, result: Json)
    ensures InitializeResult(rules, result) <==> NamesAgent(rules, result)
  {
    ShortlyExactly(rules, result, Ascii("userAgent"), 256);
    ShortlyExactly(rules, result, CODEX_HOME, 4_096);
    ReferenceExactly(result, Ascii("platformFamily"));
    ReferenceExactly(result, Ascii("platformOs"));
  }

  /** The handshake begins exactly with an answer that names the agent and its platform. */
  lemma {:induction false} InitializeExactly(rules: Rules, m: Json, request: int)
    ensures InitializeResponse(rules, m, Some(request)) <==>
            exists result: Json :: Answers(m, request, result) && NamesAgent(rules, result)
  {
    if ResultOf(m, Some(request)).Some? {
      AnswersExactly(m, request, ResultOf(m, Some(request)).value);
      AgentExactly(rules, ResultOf(m, Some(request)).value);
    }
    if result: Json :| Answers(m, request, result) && NamesAgent(rules, result) {
      AnswersExactly(m, request, result);
      AgentExactly(rules, result);
    }
  }

  /** The end of this turn of this thread, as completed: no error, and its items in a list. */
  ghost predicate EndsCompleted(m: Json, threadId: Text, turnId: Text)
  {
    exists params: Json, turn: Json, items: seq<Json> ::
      && m.Object? && |m.members| == 2 && Says(m, METHOD, TURN_COMPLETED) && Field(m, PARAMS) == Some(params)
      && params.Object? && |params.members| == 2 && Says(params, THREAD_ID, threadId) &&
         Field(params, TURN) == Some(turn)
      && IsTurn(turn) && Says(turn, ID, turnId) && Says(turn, STATUS, Ascii("completed"))
      && Field(turn, ERROR) == Some(Null) && Field(turn, ITEMS) == Some(Array(items))
      && IsReference(threadId) && IsReference(turnId)
  }

  lemma {:induction false} CompletedTurnExactly(turn: Json, turnId: Text)
    ensures EndedTurn(turn, Some(turnId)) == Some(Completed) <==>
            exists items: seq<Json> ::
              && IsTurn(turn) && Says(turn, ID, turnId) && IsReference(turnId) && Says(turn, STATUS, Ascii("completed"))
              && Field(turn, ERROR) == Some(Null) && Field(turn, ITEMS) == Some(Array(items))
  {
  }

  /** A message is read as the completed end of this thread's turn exactly when it says so. */
  lemma {:induction false} CompletedStatusExactly(m: Json, threadId: Text, turnId: Text)
    ensures TerminalStatus(m, Some(threadId), Some(turnId)) == Some(Completed) <==> EndsCompleted(m, threadId, turnId)
  {
    TwoKeys(m, METHOD, PARAMS);
    if Field(m, PARAMS).Some? {
      var params := Field(m, PARAMS).value;
      TwoKeys(params, THREAD_ID, TURN);
      if Field(params, TURN).Some? { CompletedTurnExactly(Field(params, TURN).value, turnId); }
    }
  }

  // ----- progress -----

  /** The parameters name this thread, and this turn where the method says so, and hold no unsafe item. */
  ghost predicate IsProgressOf(name: Text, params: Json, threadId: Text, turnId: Text)
  {
    && params.Object? && Says(params, THREAD_ID, threadId) && IsSafeReference(threadId)
    && (name == Validation.TOKEN_USAGE || name == Validation.TURN_STARTED ||
          (Says(params, Validation.TURN_ID, turnId) && IsSafeReference(turnId)))
    && (name != Validation.TURN_STARTED ||
          exists turn: Json :: Field(params, TURN) == Some(turn) && turn.Object? && Says(turn, ID, turnId) &&
                               IsSafeReference(turnId) && Says(turn, STATUS, Ascii("inProgress")))
    && ((name != Validation.ITEM_STARTED && name != Validation.ITEM_COMPLETED) ||
          exists item: Json, kind: Text :: Field(params, Validation.ITEM) == Some(item) && item.Object? &&
                                           Says(item, Validation.TYPE, kind) && kind in Validation.SAFE_ITEM_TYPES)
  }

  lemma {:induction false} CorrelatedExactly(name: Text, params: Json, threadId: Text, turnId: Text)
    ensures Validation.Correlated(name, params, Some(threadId), Some(turnId)) <==>
            IsProgressOf(name, params, threadId, turnId)
  {
  }

  ghost predicate IsProgress(
    rules: Rules, m: Json, threadId: Text, turnId: Text, name: Text, params: Json, t: Text, p: Runner.Progress)
  {
    && Says(m, METHOD, name) && name in Validation.SAFE_PROGRESS_METHODS && Field(m, ID) == None
    && Field(m, PARAMS) == Some(params) && IsProgressOf(name, params, threadId, turnId)
    && Admitted(Validation.ProgressPolicy(), m) && CanonicalJson(rules.sensitive, m) == Some(t)
    && |Utf8(t)| <= 65_536 && p == Runner.Progress(rules.sha256(t), name == Validation.TOKEN_USAGE)
  }

  lemma {:induction false} MethodExactly(m: Json, threadId: Text, turnId: Text, name: Text)
    ensures Validation.ProgressMethod(m, Some(threadId), Some(turnId)) == Some(name) <==>
            && Says(m, METHOD, name) && name in Validation.SAFE_PROGRESS_METHODS && Field(m, ID) == None
            && Field(m, PARAMS).Some? && IsProgressOf(name, Field(m, PARAMS).value, threadId, turnId)
  {
    if Field(m, PARAMS).Some? { CorrelatedExactly(name, Field(m, PARAMS).value, threadId, turnId); }
  }

  /**
   * A message is admitted as progress exactly when it says so, is bounded, and its canonical text has
   * at most 65536 bytes.
   */
  lemma {:induction false} ProgressExactly(rules: Rules, m: Json, threadId: Text, turnId: Text, p: Runner.Progress)
    ensures Validation.ProgressOf(rules, m, Some(threadId), Some(turnId)) == Some(p) <==>
            exists name: Text, params: Json, t: Text :: IsProgress(rules, m, threadId, turnId, name, params, t, p)
  {
    if Validation.ProgressOf(rules, m, Some(threadId), Some(turnId)) == Some(p) {
      var name := Validation.ProgressMethod(m, Some(threadId), Some(turnId)).value;
      MethodExactly(m, threadId, turnId, name);
      assert IsProgress(rules, m, threadId, turnId, name, Field(m, PARAMS).value,
        CanonicalJson(rules.sensitive, m).value, p);
    }
    if name: Text, params: Json, t: Text :| IsProgress(rules, m, threadId, turnId, name, params, t, p) {
      MethodExactly(m, threadId, turnId, name);
    }
  }

  // ----- a completed run, in JSON -----

  ghost predicate IsSomeProgress(rules: Rules, m: Json, threadId: Text, turnId: Text)
  {
    exists name, params, t, p :: IsProgress(rules, m, threadId, turnId, name, params, t, p)
  }

  ghost predicate StartsThread(m: Json, threadId: Text)
  {
    exists result: Json :: Answers(m, 2, result) && IsConfinedThread(result, threadId)
  }

  /** The one agent message of the turn is this text, and its other items are safe. */
  ghost predicate SaysOnly(m: Json, t: Text)
  {
    Validation.ItemsOf(m).Some? && exists k: nat :: Validation.Says(Validation.ItemsOf(m).value, k, t)
  }

  /** The messages of a completed run: the thread's description, each progress message, and the end of the turn. */
  ghost predicate CompletedRun(
    rules: Rules, dispatchId: Text, events: seq<Runner.Event<Json>>, n: nat, threadId: Text, turnId: Text)
    requires RunOutcomes.Arrivals(events)
  {
    && 4 <= n <= |events| && StartsThread(events[1].message, threadId)
    && (forall i :: 3 <= i < n - 1 ==> IsSomeProgress(rules, events[i].message, threadId, turnId))
    && EndsCompleted(events[n - 1].message, threadId, turnId)
    && SaysOnly(events[n - 1].message, Validation.TerminalToken(dispatchId))
  }

  /** What is used of the wire of JSON messages. */
  ghost predicate ReadsJson(wire: Runner.Wire<Json>, rules: Rules, dispatchId: Text)
  {
    && (forall m, id :: wire.reader.thread(m, id) == Session.JsonReader(rules).thread(m, id))
    && (forall m, t, u :: wire.reader.terminal(m, t, u) == Session.JsonReader(rules).terminal(m, t, u))
    && (forall m, t, u :: wire.progress(m, t, u) == Validation.ProgressOf(rules, m, t, u))
    && (forall m :: wire.finalText(m) == Validation.FinalText(m))
    && wire.token == Validation.TerminalToken(dispatchId)
  }

  lemma {:induction false} JsonWireReads(rules: Rules, challenge: Text, dispatchId: Text)
    ensures ReadsJson(Validation.JsonWire(rules, challenge, dispatchId), rules, dispatchId)
  {
  }

  lemma {:induction false} ThreadOfRun(wire: Runner.Wire<Json>, rules: Rules, dispatchId: Text, m: Json, threadId: Text)
    requires ReadsJson(wire, rules, dispatchId)
    requires wire.reader.thread(m, Some(2)) == Some(ThreadReading(true, Some(threadId)))
    ensures StartsThread(m, threadId)
  {
    ThreadExactly(m, 2, threadId);
  }

  lemma {:induction false} EndOfRun(
    wire: Runner.Wire<Json>, rules: Rules, dispatchId: Text, m: Json, threadId: Text, turnId: Text)
    requires ReadsJson(wire, rules, dispatchId) && wire.finalText(m) == Some(wire.token)
    requires wire.reader.terminal(m, Some(threadId), Some(turnId)).Some?
    requires wire.reader.terminal(m, Some(threadId), Some(turnId)).value.status == Completed
    ensures EndsCompleted(m, threadId, turnId) && SaysOnly(m, Validation.TerminalToken(dispatchId))
  {
    CompletedStatusExactly(m, threadId, turnId);
    Validation.FinalTextExact(m, wire.token);
  }

  lemma {:induction false} ProgressOfRun(
    wire: Runner.Wire<Json>, rules: Rules, dispatchId: Text, m: Json, threadId: Text, turnId: Text)
    requires ReadsJson(wire, rules, dispatchId) && wire.progress(m, Some(threadId), Some(turnId)).Some?
    ensures IsSomeProgress(rules, m, threadId, turnId)
  {
    ProgressExactly(rules, m, threadId, turnId, wire.progress(m, Some(threadId), Some(turnId)).value);
  }

  lemma {:induction false} CompletesInJson(
    wire: Runner.Wire<Json>, rules: Rules, dispatchId: Text, deadline: int, events: seq<Runner.Event<Json>>, n: nat,
    threadId: Text, turnId: Text, e: Runner.Evidence)
    requires ReadsJson(wire, rules, dispatchId) && RunOutcomes.Arrivals(events)
    requires RunOutcomes.CompletesIn(wire, deadline, events, n, threadId, turnId, e)
    ensures CompletedRun(rules, dispatchId, events, n, threadId, turnId)
    ensures e.threadId == Some(threadId) && e.turnId == Some(turnId)
  {
    assert events[..3][1] == events[1];
    ThreadOfRun(wire, rules, dispatchId, events[1].message, threadId);
    EndOfRun(wire, rules, dispatchId, events[n - 1].message, threadId, turnId);
    forall i | 3 <= i < n - 1 ensures IsSomeProgress(rules, events[i].message, threadId, turnId) {
      assert events[3..n - 1][i - 3] == events[i];
      ProgressOfRun(wire, rules, dispatchId, events[i].message, threadId, turnId);
    }
  }

  /**
   * Over JSON messages, a run in which no abort fires returns evidence only after a thread that only
   * reads, is offline, is not kept and is empty; after progress of that thread and turn alone; and on
   * a message that completes the turn without an error, with the token as its only agent message.
   */
  lemma {:induction false} CompletedRunSays(
    rules: Rules, challenge: Text, dispatchId: Text, deadline: int, events: seq<Runner.Event<Json>>, e: Runner.Evidence)
    requires RunOutcomes.Arrivals(events)
    requires var wire := Validation.JsonWire(rules, challenge, dispatchId);
             Runner.Run(wire, deadline, Runner.Start(wire), events).stage == Runner.Over(Runner.Returned(e))
    ensures exists n: nat, threadId, turnId ::
              e.threadId == Some(threadId) && e.turnId == Some(turnId) &&
              CompletedRun(rules, dispatchId, events, n, threadId, turnId)
  {
    JsonWireReads(rules, challenge, dispatchId);
    RunSaysOf(Validation.JsonWire(rules, challenge, dispatchId), rules, dispatchId, deadline, events, e);
  }

  lemma {:induction false} RunSaysOf(
    wire: Runner.Wire<Json>, rules: Rules, dispatchId: Text, deadline: int, events: seq<Runner.Event<Json>>,
    e: Runner.Evidence)
    requires ReadsJson(wire, rules, dispatchId) && RunOutcomes.Arrivals(events)
    requires Runner.Run(wire, deadline, Runner.Start(wire), events).stage == Runner.Over(Runner.Returned(e))
    ensures exists n: nat, threadId, turnId ::
              e.threadId == Some(threadId) && e.turnId == Some(turnId) &&
              CompletedRun(rules, dispatchId, events, n, threadId, turnId)
  {
    RunOutcomes.CompletedExactly(wire, deadline, events, e);
    var n: nat, threadId, turnId :| RunOutcomes.CompletesIn(wire, deadline, events, n, threadId, turnId, e);
    CompletesInJson(wire, rules, dispatchId, deadline, events, n, threadId, turnId, e);
  }
}
