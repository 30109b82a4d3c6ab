/** What the client of a Codex app-server accepts as each response and as the terminal message. */
module AppServerMessages {
  import opened Outcomes
  import opened Texts
  import opened Json
  import opened Canonical
  import opened PayloadWalk

  const MAX_TASK_TEXT_BYTES: nat := 16_384
  const MAX_EVENT_BYTES: nat := 65_536
  const MAX_SESSION_BYTES: nat := 8_388_608
  const MAX_SESSION_EVENTS: nat := 512

  /** The sensitive-text and control-character expressions, and SHA-256 of a text in hex. */
  datatype Rules = Rules(sensitive: Sensitive, control: Text -> bool, sha256: Text -> Text)

  // ----- reading messages -----

  const ID: Text := Ascii("id")
  const METHOD: Text := Ascii("method")
  const PARAMS: Text := Ascii("params")
  const RESULT: Text := Ascii("result")
  const ERROR: Text := Ascii("error")
  const THREAD: Text := Ascii("thread")
  const THREAD_ID: Text := Ascii("threadId")
  const TURN: Text := Ascii("turn")
  const STATUS: Text := Ascii("status")
  const ITEMS: Text := Ascii("items")
  const CODEX_HOME: Text := Ascii("codexHome")
  const MODEL: Text := Ascii("model")
  const TURN_COMPLETED: Text := Ascii("turn/completed")

  const INITIALIZE_KEYS: seq<Text> := [Ascii("userAgent"), Ascii("platformFamily"), Ascii("platformOs")]

  const THREAD_RESULT_KEYS: seq<Text> := [
    THREAD, MODEL, Ascii("modelProvider"), Ascii("serviceTier"), Ascii("cwd"), Ascii("instructionSources"),
    Ascii("approvalPolicy"), Ascii("approvalsReviewer"), Ascii("sandbox"), Ascii("reasoningEffort")]

  const THREAD_ORIGIN_KEYS: seq<Text> := [
    ID, Ascii("sessionId"), Ascii("forkedFromId"), Ascii("parentThreadId"), Ascii("preview"), Ascii("ephemeral"),
    Ascii("section"), Ascii("sectionEnteredAt"), Ascii("projectId"), Ascii("historyMode"), Ascii("modelProvider")]

  const THREAD_STATE_KEYS: seq<Text> := [
    Ascii("createdAt"), Ascii("updatedAt"), Ascii("recencyAt"), STATUS, Ascii("path"), Ascii("cwd"),
    Ascii("cliVersion"), Ascii("source"), Ascii("threadSource"), Ascii("agentNickname"), Ascii("agentRole"),
    Ascii("gitInfo"), Ascii("name"), Ascii("turns")]

  const THREAD_KEYS: seq<Text> := THREAD_ORIGIN_KEYS + THREAD_STATE_KEYS

  const TURN_KEYS: seq<Text> := [ID, STATUS, ITEMS, ERROR]

  const LONG_TURN_KEYS: seq<Text> := [
    ID, ITEMS, Ascii("itemsView"), STATUS, ERROR, Ascii("startedAt"), Ascii("completedAt"), Ascii("durationMs")]

  const FORBIDDEN_KEYS: seq<Text> := [Ascii("__proto__"), Ascii("constructor"), Ascii("prototype")]

  /** An object with exactly these own keys. */
  predicate Exact(v: Json, keys: seq<Text>)
  {
    v.Object? && |v.members| == |keys| && forall i :: 0 <= i < |keys| ==> Find(v.members, keys[i]).Some?
  }

  /** One alphanumeric, then at most 255 of those or `._:-`. */
  predicate IsReference(t: Text)
  {
    1 <= |t| <= 256 && (IsAlphanumeric(t[0])) &&
    forall i :: 1 <= i < |t| ==> IsAlphanumeric(t[i]) || t[i] in {46, 95, 58, 45}
  }

  function ReferenceField(v: Json, key: Text): (r: Option<Text>)
  {
    match StringField(v, key)
    case Some(s) => if IsReference(s) then Some(s) else None
    case None => None
  }

  predicate IsStatus(v: Json, status: Text) { StringField(v, STATUS) == Some(status) }

  /** The event walk: any scalar, arrays to 256, objects to 64 entries without forbidden keys. */
  function EventPolicy(): Policy
  {
    Policy((v: Json) => true, (n: nat) => n <= 256,
           (keys: seq<Text>) => |keys| <= 64 && forall i :: 0 <= i < |keys| ==> keys[i] !in FORBIDDEN_KEYS)
  }

  /** The canonical size of a message, if the walk and canonicalization let it through. */
  ghost function ByteLength(rules: Rules, v: Json): (n: Option<nat>)
  {
    if !Admitted(EventPolicy(), v) then None
    else
      match CanonicalJson(rules.sensitive, v)
      case None => None
      case Some(t) => Some(|Utf8(t)|)
  }

  function MessageHash(rules: Rules, v: Json): (h: Option<Text>)
  {
    match CanonicalJson(rules.sensitive, v)
    case None => None
    case Some(t) => Some(rules.sha256(t))
  }

  /** The result of a response to the pending request. */
  function ResultOf(v: Json, pending: Option<int>): (r: Option<Json>)
  {
    if !Exact(v, [ID, RESULT]) then None
    else
      match Field(v, ID)
      case Some(Integer(n)) => if IsSafeInteger(n) && n >= 1 && pending == Some(n) then Field(v, RESULT) else None
      case _ => None
  }

  predicate ShortText(rules: Rules, v: Json, key: Text, maximum: nat)
  {
    match StringField(v, key)
    case Some(s) => 1 <= |s| <= maximum && !rules.control(s)
    case None => false
  }

  /** The result of an initialize response names the agent and its platform. */
  predicate InitializeResult(rules: Rules, result: Json)
  {
    && (Exact(result, INITIALIZE_KEYS) || Exact(result, INITIALIZE_KEYS + [CODEX_HOME]))
    && ShortText(rules, result, Ascii("userAgent"), 256)
    && (Field(result, CODEX_HOME).Some? ==> ShortText(rules, result, CODEX_HOME, 4_096))
    && ReferenceField(result, Ascii("platformFamily")).Some? && ReferenceField(result, Ascii("platformOs")).Some?
  }

  /** A sandbox that only reads and has no network. */
  predicate Confined(sandbox: Json)
  {
    && Exact(sandbox, [Ascii("type"), Ascii("networkAccess")])
    && StringField(sandbox, Ascii("type")) == Some(Ascii("readOnly"))
    && Field(sandbox, Ascii("networkAccess")) == Some(Bool(false))
  }

  /** A full thread description must confirm a read-only, offline, ephemeral, empty thread. */
  predicate Restricted(result: Json, thread: Json)
  {
    && Exact(thread, THREAD_KEYS)
    && StringField(result, Ascii("approvalPolicy")) == Some(Ascii("never"))
    && (match Field(result, Ascii("sandbox")) case Some(sandbox) => Confined(sandbox) case None => false)
    && Field(thread, Ascii("ephemeral")) == Some(Bool(true))
    && Field(thread, Ascii("turns")) == Some(Array([]))
  }

  /** Whether a thread result confirmed the restrictions, and its id; the id may be unusable. */
  datatype ThreadReading = ThreadReading(restricted: bool, id: Option<Text>)

  function ThreadResult(result: Json): (r: Option<ThreadReading>)
  {
    if !Exact(result, [THREAD]) && !Exact(result, THREAD_RESULT_KEYS) then None
    else
      match Field(result, THREAD)
      case None => None
      case Some(thread) =>
        var full := Field(result, MODEL).Some?;
        if !thread.Object? || (full && !Restricted(result, thread)) then None
        else Some(ThreadReading(full, ReferenceField(thread, ID)))
  }

  predicate IsTurn(v: Json) { Exact(v, TURN_KEYS) || Exact(v, LONG_TURN_KEYS) }

  /** The id of a turn that has just begun. */
  function TurnResult(result: Json): (r: Option<Text>)
  {
    match Field(result, TURN)
    case None => None
    case Some(turn) =>
      if Exact(result, [TURN]) && IsTurn(turn) && IsStatus(turn, Ascii("inProgress")) &&
         Field(turn, ITEMS) == Some(Array([])) && Field(turn, ERROR) == Some(Null)
      then ReferenceField(turn, ID) else None
  }

  datatype Status = Completed | Interrupted | Failure

  function StatusOf(v: Json): (r: Option<Status>)
  {
    if IsStatus(v, Ascii("completed")) then Some(Completed)
    else if IsStatus(v, Ascii("interrupted")) then Some(Interrupted)
    else if IsStatus(v, Ascii("failed")) then Some(Failure)
    else None
  }

  /** The status of a turn that ended as this one. */
  function EndedTurn(turn: Json, turnId: Option<Text>): (r: Option<Status>)
  {
    if !IsTurn(turn) || ReferenceField(turn, ID).None? || ReferenceField(turn, ID) != turnId then None
    else
      match (Field(turn, ITEMS), StatusOf(turn))
      case (Some(Array(_)), Some(status)) =>
        if status != Failure && Field(turn, ERROR) != Some(Null) then None else Some(status)
      case _ => None
  }

  /** The status of a terminal message for this thread and turn. */
  function TerminalStatus(v: Json, threadId: Option<Text>, turnId: Option<Text>): (r: Option<Status>)
  {
    match Field(v, PARAMS)
    case None => None
    case Some(params) =>
      match Field(params, TURN)
      case None => None
      case Some(turn) =>
        if Exact(v, [METHOD, PARAMS]) && StringField(v, METHOD) == Some(TURN_COMPLETED) &&
          Exact(params, [THREAD_ID, TURN]) &&
           ReferenceField(params, THREAD_ID).Some? && ReferenceField(params, THREAD_ID) == threadId
        then EndedTurn(turn, turnId) else None
  }

  /** An initialize response to the pending request. */
  predicate InitializeResponse(rules: Rules, m: Json, pending: Option<int>)
  {
    match ResultOf(m, pending)
    case None => false
    case Some(result) => InitializeResult(rules, result)
  }

  function ThreadResponse(m: Json, pending: Option<int>): (r: Option<ThreadReading>)
  {
    match ResultOf(m, pending)
    case None => None
    case Some(result) => ThreadResult(result)
  }

  function TurnResponse(m: Json, pending: Option<int>): (r: Option<Text>)
  {
    match ResultOf(m, pending)
    case None => None
    case Some(result) => TurnResult(result)
  }

  /** The hash of an empty result for the pending interrupt. */
  function InterruptResponse(rules: Rules, m: Json, pending: Option<int>): (r: Option<Text>)
  {
    if ResultOf(m, pending) == Some(Object([])) then MessageHash(rules, m) else None
  }

  /** The text without tabs and line ends. */
  function WithoutLayout(t: Text): Text
  {
    if t == [] then []
    else if t[0] in {9, 10, 13} then WithoutLayout(t[1..])
    else [t[0]] + WithoutLayout(t[1..])
  }

  predicate TaskTextAllowed(rules: Rules, text: Text)
  {
    text != [] && |Utf8(text)| <= MAX_TASK_TEXT_BYTES && !rules.control(WithoutLayout(text))
  }

  /** The walk, then the canonical size. */
  method Measure(rules: Rules, v: Json) returns (n: Option<nat>)
    ensures n == ByteLength(rules, v)
  {
    var ok, _ := Walk(EventPolicy(), v);
    if !ok { return None; }
    match CanonicalJson(rules.sensitive, v) {
      case None => return None;
      case Some(t) => return Some(|Utf8(t)|);
    }
  }
}

/** The client side of one Codex app-server conversation: an ordered handshake, one turn, one terminal message. */
module AppServerSession {
  import opened Outcomes
  import opened Texts
  import opened Json
  import opened AppServerMessages

  /** What a message says as a response to the pending request, or as the terminal message. */
  datatype Reader<!M> = Reader(
    initialize: (M, Option<int>) -> bool,
    thread: (M, Option<int>) -> Option<ThreadReading>,
    task: Text -> bool,
    turn: (M, Option<int>) -> Option<Text>,
    interrupt: (M, Option<int>) -> Option<Text>,
    terminal: (M, Option<Text>, Option<Text>) -> Option<TerminalReading>)

  /** An ended turn: how, the size of the message and its hash. */
  datatype TerminalReading = TerminalReading(status: Status, bytes: nat, hash: Text)

  // ----- the state machine -----

  datatype Phase =
    | New | InitializePending | InitializeAcknowledged | Initialized | ThreadPending | ThreadReady | TurnPending
    | TurnActive | InterruptPending | InterruptAcknowledged | TurnTerminal | Failed

  datatype State = State(
    phase: Phase,
    nextId: int,
    pendingId: Option<int>,
    threadId: Option<Text>,
    turnId: Option<Text>,
    terminalStatus: Option<Status>,
    restrictionsAccepted: bool,
    acceptedEvents: nat,
    acceptedBytes: nat)

  const NEW_SESSION: State := State(New, 1, None, None, None, None, false, 0, 0)

  datatype Call<M> =
    | Initialize
    | AcceptInitialize(m: M)
    | AnnounceInitialized
    | StartThread
    | AcceptThread(m: M)
    | StartTurn(text: Text)
    | AcceptTurn(m: M)
    | Interrupt
    | AcceptInterrupt(m: M)
    | AcceptTurnCompleted(m: M)

  /** A request to send under an id, a notification, acknowledged interruption, the terminal message, or a throw. */
  datatype Answer =
    | Request(id: int)
    | Done
    | Acknowledged(id: int, responseHash: Text)
    | Terminal(status: Status, messageHash: Text)
    | Thrown

  function Deny(s: State): (r: (State, Answer)) { (s.(phase := Failed), Thrown) }

  /** A request: the next id becomes the pending one. */
  function Send(s: State, from: Phase, to: Phase): (r: (State, Answer))
  {
    if s.phase != from then Deny(s)
    else (s.(phase := to, nextId := s.nextId + 1, pendingId := Some(s.nextId)), Request(s.nextId))
  }

  function TerminalStep<M>(reader: Reader<M>, s: State, m: M): (r: (State, Answer))
  {
    if s.phase != TurnActive && s.phase != InterruptAcknowledged then Deny(s)
    else
      match reader.terminal(m, s.threadId, s.turnId)
      case None => Deny(s)
      case Some(t) =>
        if t.bytes > MAX_EVENT_BYTES || s.acceptedEvents >= MAX_SESSION_EVENTS ||
           t.bytes > MAX_SESSION_BYTES - s.acceptedBytes
        then Deny(s)
        else
          (s.(phase := TurnTerminal, terminalStatus := Some(t.status), acceptedEvents := s.acceptedEvents + 1,
              acceptedBytes := s.acceptedBytes + t.bytes), Terminal(t.status, t.hash))
  }

  function ThreadStep<M>(reader: Reader<M>, s: State, m: M): (r: (State, Answer))
  {
    if s.phase != ThreadPending then Deny(s)
    else
      match reader.thread(m, s.pendingId)
      case None => Deny(s)
      case Some(t) =>
        var noted := s.(restrictionsAccepted := s.restrictionsAccepted || t.restricted);
        if t.id.None? then Deny(noted) else (noted.(phase := ThreadReady, pendingId := None, threadId := t.id), Done)
  }

  function Step<M>(reader: Reader<M>, s: State, call: Call<M>): (r: (State, Answer))
  {
    match call
    case Initialize => Send(s, New, InitializePending)
    case AcceptInitialize(m) =>
      if s.phase == InitializePending && reader.initialize(m, s.pendingId)
      then (s.(phase := InitializeAcknowledged, pendingId := None), Done) else Deny(s)
    case AnnounceInitialized =>
      if s.phase == InitializeAcknowledged then (s.(phase := Initialized), Done) else Deny(s)
    case StartThread => Send(s, Initialized, ThreadPending)
    case AcceptThread(m) => ThreadStep(reader, s, m)
    case StartTurn(text) => if reader.task(text) then Send(s, ThreadReady, TurnPending) else Deny(s)
    case AcceptTurn(m) =>
      if s.phase != TurnPending then Deny(s)
      else
        (match reader.turn(m, s.pendingId)
         case None => Deny(s)
         case Some(id) => (s.(phase := TurnActive, pendingId := None, turnId := Some(id)), Done))
    case Interrupt => Send(s, TurnActive, InterruptPending)
    case AcceptInterrupt(m) =>
      if s.phase != InterruptPending || s.pendingId.None? then Deny(s)
      else
        (match reader.interrupt(m, s.pendingId)
         case None => Deny(s)
         case Some(hash) =>
           (s.(phase := InterruptAcknowledged, pendingId := None), Acknowledged(s.pendingId.value, hash)))
    case AcceptTurnCompleted(m) => TerminalStep(reader, s, m)
  }

  /** The states and answers of a sequence of calls. */
  function Run<M>(reader: Reader<M>, s: State, calls: seq<Call<M>>): (r: (State, seq<Answer>))
    ensures |r.1| == |calls|
    decreases |calls|
  {
    if calls == [] then (s, [])
    else
      var (t, answer) := Step(reader, s, calls[0]);
      var (last, answers) := Run(reader, t, calls[1..]);
      (last, [answer] + answers)
  }

  /** After the first throw every later call throws, and the session has failed for good. */
  lemma {:induction false} FailedAbsorbs<M>(reader: Reader<M>, s: State, calls: seq<Call<M>>)
    ensures var (t, answers) := Run(reader, s, calls);
            && (s.phase == Failed ==> t.phase == Failed)
            && (s.phase == Failed ==> forall i :: 0 <= i < |answers| ==> answers[i] == Thrown)
            && (forall i, j :: 0 <= i <= j < |answers| && answers[i] == Thrown ==>
               answers[j] == Thrown &&
               t.phase == Failed)
    decreases |calls|
  {
    if calls != [] {
      var (t, answer) := Step(reader, s, calls[0]);
      CallsMoveForward(reader, s, calls[0]);
      FailedAbsorbs(reader, t, calls[1..]);
      var (last, answers) := Run(reader, s, calls);
      assert answers == [answer] + Run(reader, t, calls[1..]).1;
      forall i, j | 0 <= i <= j < |answers| && answers[i] == Thrown
        ensures answers[j] == Thrown && last.phase == Failed
      {
        if 0 < i { assert answers[i] == Run(reader, t, calls[1..]).1[i - 1]; }
        if 0 < j { assert answers[j] == Run(reader, t, calls[1..]).1[j - 1]; }
      }
    }
  }

  /** Ids sent by a run, in order. */
  function SentIds(answers: seq<Answer>): (ids: seq<int>)
  {
    if answers == [] then []
    else (if answers[0].Request? then [answers[0].id] else []) + SentIds(answers[1..])
  }

  /** Request ids rise by one from the session's counter: none is skipped and none is used twice. */
  lemma {:induction false} IdsRise<M>(reader: Reader<M>, s: State, calls: seq<Call<M>>)
    ensures var (t, answers) := Run(reader, s, calls);
            var ids := SentIds(answers);
            t.nextId == s.nextId + |ids| && forall i :: 0 <= i < |ids| ==> ids[i] == s.nextId + i
    decreases |calls|
  {
    if calls != [] {
      var (t, answer) := Step(reader, s, calls[0]);
      IdsRise(reader, t, calls[1..]);
      var answers := Run(reader, s, calls).1;
      assert answers[1..] == Run(reader, t, calls[1..]).1;
    }
  }

  /** How far a phase is along the one order in which calls succeed. */
  function Rank(p: Phase): nat
  {
    match p
    case New => 0
    case InitializePending => 1
    case InitializeAcknowledged => 2
    case Initialized => 3
    case ThreadPending => 4
    case ThreadReady => 5
    case TurnPending => 6
    case TurnActive => 7
    case InterruptPending => 8
    case InterruptAcknowledged => 9
    case TurnTerminal => 10
    case Failed => 11
  }

  /** Every call moves forward; only a failed session stays where it is. */
  lemma {:induction false} CallsMoveForward<M>(reader: Reader<M>, s: State, call: Call<M>)
    ensures var t := Step(reader, s, call).0; Rank(s.phase) < Rank(t.phase) || (s.phase == Failed && t.phase == Failed)
    ensures Step(reader, s, call).1 == Thrown <==> Step(reader, s, call).0.phase == Failed
  {
  }

  /** What the counter and the pending id say in each phase of a session started afresh. */
  ghost predicate Consistent(s: State)
  {
    && (s.phase == InitializePending ==> s.nextId == 2 && s.pendingId == Some(1))
    && (s.phase == InitializeAcknowledged || s.phase == Initialized ==> s.nextId == 2 && s.pendingId == None)
    && (s.phase == ThreadPending ==> s.nextId == 3 && s.pendingId == Some(2))
    && (s.phase == ThreadReady ==> s.nextId == 3 && s.pendingId == None)
    && (s.phase == TurnPending ==> s.nextId == 4 && s.pendingId == Some(3))
    && (s.phase == TurnActive ==> s.nextId == 4 && s.pendingId == None && s.threadId.Some? && s.turnId.Some?)
    && (s.phase == InterruptPending ==> s.nextId == 5 && s.pendingId == Some(4) && s.threadId.Some? && s.turnId.Some?)
    && (s.phase == InterruptAcknowledged ==> s.nextId == 5 && s.pendingId == None && s.threadId.Some? && s.turnId.Some?)
    && (s.phase == New ==> s == NEW_SESSION)
    && (Rank(s.phase) >= 5 && s.phase != Failed ==> s.threadId.Some?)
    && (Rank(s.phase) < 10 ==> s.acceptedEvents == 0 && s.acceptedBytes == 0)
  }

  lemma {:induction false} StepConsistent<M>(reader: Reader<M>, s: State, call: Call<M>)
    requires Consistent(s)
    ensures Consistent(Step(reader, s, call).0)
  {
  }

  /** In every session the interrupt, if sent, is request 4, and the handshake uses 1 to 3. */
  lemma {:induction false} RunConsistent<M>(reader: Reader<M>, s: State, calls: seq<Call<M>>)
    requires Consistent(s)
    ensures Consistent(Run(reader, s, calls).0)
    decreases |calls|
  {
    if calls != [] {
      StepConsistent(reader, s, calls[0]);
      RunConsistent(reader, Step(reader, s, calls[0]).0, calls[1..]);
    }
  }

  // ----- the session object -----

  /** The reader of JSON messages: every response but an interrupt's is walked and measured first. */
  ghost function JsonReader(rules: Rules): Reader<Json>
  {
    Reader(
      (m: Json, pending: Option<int>) => ByteLength(rules, m).Some? && InitializeResponse(rules, m, pending),
      (m: Json, pending: Option<int>) => if ByteLength(rules, m).Some? then ThreadResponse(m, pending) else None,
      (text: Text) => TaskTextAllowed(rules, text),
      (m: Json, pending: Option<int>) => if ByteLength(rules, m).Some? then TurnResponse(m, pending) else None,
      (m: Json, pending: Option<int>) => InterruptResponse(rules, m, pending),
      (m: Json, threadId: Option<Text>, turnId: Option<Text>) =>
        match (ByteLength(rules, m), TerminalStatus(m, threadId, turnId), MessageHash(rules, m))
        case (Some(bytes), Some(status), Some(hash)) => Some(TerminalReading(status, bytes, hash))
        case _ => None)
  }

  method ReadInitialize(rules: Rules, m: Json, pending: Option<int>) returns (ok: bool)
    ensures ok == JsonReader(rules).initialize(m, pending)
  {
    var bytes := Measure(rules, m);
    ok := bytes.Some? && InitializeResponse(rules, m, pending);
  }

  method ReadThread(rules: Rules, m: Json, pending: Option<int>) returns (r: Option<ThreadReading>)
    ensures r == JsonReader(rules).thread(m, pending)
  {
    var bytes := Measure(rules, m);
    r := if bytes.Some? then ThreadResponse(m, pending) else None;
  }

  method ReadTurn(rules: Rules, m: Json, pending: Option<int>) returns (r: Option<Text>)
    ensures r == JsonReader(rules).turn(m, pending)
  {
    var bytes := Measure(rules, m);
    r := if bytes.Some? then TurnResponse(m, pending) else None;
  }

  method ReadTerminal(
    rules: Rules, m: Json, threadId: Option<Text>, turnId: Option<Text>) returns (r: Option<TerminalReading>)
    ensures r == JsonReader(rules).terminal(m, threadId, turnId)
  {
    var bytes := Measure(rules, m);
    var status := TerminalStatus(m, threadId, turnId);
    var hash := MessageHash(rules, m);
    if bytes.None? || status.None? || hash.None? { return None; }
    return Some(TerminalReading(status.value, bytes.value, hash.value));
  }

  /** The session's fields; every method is one step of the state machine above. */
  class CodexSession {
    const rules: Rules
    var phase: Phase
    var nextId: int
    var pendingId: Option<int>
    var threadId: Option<Text>
    var turnId: Option<Text>
    var terminalStatus: Option<Status>
    var restrictionsAccepted: bool
    var acceptedEvents: nat
    var acceptedBytes: nat

    ghost function Value(): (s: State)
      reads this
    {
      State(phase, nextId, pendingId, threadId, turnId, terminalStatus, restrictionsAccepted, acceptedEvents,
        acceptedBytes)
    }

    constructor (rules: Rules)
      ensures Value() == NEW_SESSION && this.rules == rules
    {
      this.rules := rules;
      phase, nextId, pendingId, threadId, turnId := New, 1, None, None, None;
      terminalStatus, restrictionsAccepted, acceptedEvents, acceptedBytes := None, false, 0, 0;
    }

    method AllocateId() returns (id: int)
      modifies this
      ensures Value() == old(Value()).(nextId := old(nextId) + 1, pendingId := Some(old(nextId))) && id == old(nextId)
    {
      id := nextId;
      nextId := nextId + 1;
      pendingId := Some(id);
    }

    method Start() returns (answer: Answer)
      modifies this
      ensures (Value(), answer) == Step(JsonReader(rules), old(Value()), Initialize)
    {
      if phase != New { phase := Failed; return Thrown; }
      var id := AllocateId();
      phase := InitializePending;
      return Request(id);
    }

    method NoteInitialize<M>(ok: bool, ghost reader: Reader<M>, ghost m: M) returns (answer: Answer)
      requires ok == reader.initialize(m, pendingId)
      modifies this
      ensures (Value(), answer) == Step(reader, old(Value()), AcceptInitialize(m))
    {
      if phase != InitializePending || !ok { phase := Failed; return Thrown; }
      pendingId := None;
      phase := InitializeAcknowledged;
      return Done;
    }

    method AcceptInitializeResponse(m: Json) returns (answer: Answer)
      modifies this
      ensures (Value(), answer) == Step(JsonReader(rules), old(Value()), AcceptInitialize(m))
    {
      var ok := ReadInitialize(rules, m, pendingId);
      answer := NoteInitialize(ok, JsonReader(rules), m);
    }

    method Announce() returns (answer: Answer)
      modifies this
      ensures (Value(), answer) == Step(JsonReader(rules), old(Value()), AnnounceInitialized)
    {
      if phase != InitializeAcknowledged { phase := Failed; return Thrown; }
      phase := Initialized;
      return Done;
    }

    method BeginThread() returns (answer: Answer)
      modifies this
      ensures (Value(), answer) == Step(JsonReader(rules), old(Value()), StartThread)
    {
      if phase != Initialized { phase := Failed; return Thrown; }
      var id := AllocateId();
      phase := ThreadPending;
      return Request(id);
    }

    method NoteThread<M>(reading: Option<ThreadReading>, ghost reader: Reader<M>, ghost m: M) returns (answer: Answer)
      requires reading == reader.thread(m, pendingId)
      modifies this
      ensures (Value(), answer) == Step(reader, old(Value()), AcceptThread(m))
    {
      if phase != ThreadPending || reading.None? { phase := Failed; return Thrown; }
      if reading.value.restricted { restrictionsAccepted := true; }
      if reading.value.id.None? { phase := Failed; return Thrown; }
      threadId := reading.value.id;
      pendingId := None;
      phase := ThreadReady;
      return Done;
    }

    method AcceptThreadResponse(m: Json) returns (answer: Answer)
      modifies this
      ensures (Value(), answer) == Step(JsonReader(rules), old(Value()), AcceptThread(m))
    {
      var reading := ReadThread(rules, m, pendingId);
      answer := NoteThread(reading, JsonReader(rules), m);
    }

    method BeginTurn(text: Text) returns (answer: Answer)
      modifies this
      ensures (Value(), answer) == Step(JsonReader(rules), old(Value()), StartTurn(text))
    {
      if phase != ThreadReady || !TaskTextAllowed(rules, text) { phase := Failed; return Thrown; }
      var id := AllocateId();
      phase := TurnPending;
      return Request(id);
    }

    method NoteTurn<M>(id: Option<Text>, ghost reader: Reader<M>, ghost m: M) returns (answer: Answer)
      requires id == reader.turn(m, pendingId)
      modifies this
      ensures (Value(), answer) == Step(reader, old(Value()), AcceptTurn(m))
    {
      if phase != TurnPending || id.None? { phase := Failed; return Thrown; }
      turnId := id;
      pendingId := None;
      phase := TurnActive;
      return Done;
    }

    method AcceptTurnResponse(m: Json) returns (answer: Answer)
      modifies this
      ensures (Value(), answer) == Step(JsonReader(rules), old(Value()), AcceptTurn(m))
    {
      var id := ReadTurn(rules, m, pendingId);
      answer := NoteTurn(id, JsonReader(rules), m);
    }

    method RequestInterrupt() returns (answer: Answer)
      modifies this
      ensures (Value(), answer) == Step(JsonReader(rules), old(Value()), Interrupt)
    {
      if phase != TurnActive { phase := Failed; return Thrown; }
      var id := AllocateId();
      phase := InterruptPending;
      return Request(id);
    }

    method AcceptInterruptResponse(m: Json) returns (answer: Answer)
      modifies this
      ensures (Value(), answer) == Step(JsonReader(rules), old(Value()), AcceptInterrupt(m))
    {
      if phase != InterruptPending || pendingId.None? { phase := Failed; return Thrown; }
      var id := pendingId.value;
      var hash := InterruptResponse(rules, m, pendingId);
      if hash.None? { phase := Failed; return Thrown; }
      pendingId := None;
      phase := InterruptAcknowledged;
      return Acknowledged(id, hash.value);
    }

    method NoteTerminal<M>(
      reading: Option<TerminalReading>, ghost reader: Reader<M>, ghost m: M) returns (answer: Answer)
      requires reading == reader.terminal(m, threadId, turnId)
      modifies this
      ensures (Value(), answer) == Step(reader, old(Value()), AcceptTurnCompleted(m))
    {
      if (phase != TurnActive && phase != InterruptAcknowledged) || reading.None? { phase := Failed; return Thrown; }
      var bytes := reading.value.bytes;
      if bytes > MAX_EVENT_BYTES || acceptedEvents >= MAX_SESSION_EVENTS || bytes > MAX_SESSION_BYTES - acceptedBytes {
        phase := Failed;
        return Thrown;
      }
      terminalStatus := Some(reading.value.status);
      acceptedEvents := acceptedEvents + 1;
      acceptedBytes := acceptedBytes + bytes;
      phase := TurnTerminal;
      return Terminal(reading.value.status, reading.value.hash);
    }

    method AcceptTerminal(m: Json) returns (answer: Answer)
      modifies this
      ensures (Value(), answer) == Step(JsonReader(rules), old(Value()), AcceptTurnCompleted(m))
    {
      var reading := ReadTerminal(rules, m, threadId, turnId);
      answer := NoteTerminal(reading, JsonReader(rules), m);
    }
  }
}
