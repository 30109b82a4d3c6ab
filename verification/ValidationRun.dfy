/** The validation run over JSON messages: what progress is admitted and what the agent said last. */
module ValidationRun {
  import opened Outcomes
  import opened Texts
  import opened Json
  import opened Canonical
  import opened PayloadWalk
  import opened AppServerMessages
  import opened AppServerSession
  import Runner = ProtocolRunner

  const TURN_ID: Text := Ascii("turnId")
  const ITEM: Text := Ascii("item")
  const TYPE: Text := Ascii("type")
  const TEXT: Text := Ascii("text")
  const AGENT_MESSAGE: Text := Ascii("agentMessage")
  const TURN_STARTED: Text := Ascii("turn/started")
  const ITEM_STARTED: Text := Ascii("item/started")
  const ITEM_COMPLETED: Text := Ascii("item/completed")
  const TOKEN_USAGE: Text := Ascii("thread/tokenUsage/updated")

  const SAFE_PROGRESS_METHODS: seq<Text> := [
    TURN_STARTED, ITEM_STARTED, ITEM_COMPLETED, Ascii("item/agentMessage/delta"),
    Ascii("item/reasoning/summaryTextDelta"), Ascii("item/reasoning/summaryPartAdded"), TOKEN_USAGE]

  const SAFE_ITEM_TYPES: seq<Text> := [Ascii("userMessage"), AGENT_MESSAGE, Ascii("reasoning")]

  const TOKEN_PREFIX: Text := Ascii("ventureos-validation:")

  // ----- the agent's last words -----

  function TypeOf(item: Json): (t: Option<Text>) { StringField(item, TYPE) }

  predicate SafeItem(item: Json)
  {
    match TypeOf(item)
    case Some(t) => t in SAFE_ITEM_TYPES
    case None => false
  }

  function AgentMessages(items: seq<Json>): (r: seq<Json>)
  {
    if items == [] then []
    else (if TypeOf(items[0]) == Some(AGENT_MESSAGE) then [items[0]] else []) + AgentMessages(items[1..])
  }

  /** The items of the turn in a terminal message. */
  function ItemsOf(m: Json): (r: Option<seq<Json>>)
  {
    match Field(m, PARAMS)
    case None => None
    case Some(params) =>
      match Field(params, TURN)
      case None => None
      case Some(turn) =>
        match Field(turn, ITEMS)
        case Some(Array(items)) => Some(items)
        case _ => None
  }

  function FinalText(m: Json): (r: Option<Text>)
  {
    match ItemsOf(m)
    case None => None
    case Some(items) =>
      if exists i :: 0 <= i < |items| && !SafeItem(items[i]) then None
      else
        var agent := AgentMessages(items);
        if |agent| != 1 then None else StringField(agent[0], TEXT)
  }

  /** The only agent message among safe items is the one at `k`, and it says `t`. */
  ghost predicate Says(items: seq<Json>, k: nat, t: Text)
  {
    && k < |items| && TypeOf(items[k]) == Some(AGENT_MESSAGE) && StringField(items[k], TEXT) == Some(t)
    && (forall i :: 0 <= i < |items| ==> SafeItem(items[i]))
    && (forall i :: 0 <= i < |items| && i != k ==> TypeOf(items[i]) != Some(AGENT_MESSAGE))
  }

  lemma {:induction false} NoAgentMessages(items: seq<Json>)
    ensures AgentMessages(items) == [] <==> forall i :: 0 <= i < |items| ==> TypeOf(items[i]) != Some(AGENT_MESSAGE)
  {
    if items != [] {
      NoAgentMessages(items[1..]);
      assert forall i :: 1 <= i < |items| ==> items[i] == items[1..][i - 1];
    }
  }

  /** One agent message is the item at one index. */
  lemma {:induction false} OneAgentMessage(items: seq<Json>) returns (k: nat)
    requires |AgentMessages(items)| == 1
    ensures k < |items| && AgentMessages(items) == [items[k]] && TypeOf(items[k]) == Some(AGENT_MESSAGE)
    ensures forall i :: 0 <= i < |items| && i != k ==> TypeOf(items[i]) != Some(AGENT_MESSAGE)
  {
    if TypeOf(items[0]) == Some(AGENT_MESSAGE) {
      NoAgentMessages(items[1..]);
      assert forall i :: 1 <= i < |items| ==> items[i] == items[1..][i - 1];
      k := 0;
    } else {
      var j := OneAgentMessage(items[1..]);
      assert forall i :: 1 <= i < |items| ==> items[i] == items[1..][i - 1];
      k := j + 1;
    }
  }

  lemma {:induction false} OnlyAgentMessage(items: seq<Json>, k: nat)
    requires k < |items| && TypeOf(items[k]) == Some(AGENT_MESSAGE)
    requires forall i :: 0 <= i < |items| && i != k ==> TypeOf(items[i]) != Some(AGENT_MESSAGE)
    ensures AgentMessages(items) == [items[k]]
  {
    assert forall i :: 1 <= i < |items| ==> items[i] == items[1..][i - 1];
    if k == 0 {
      NoAgentMessages(items[1..]);
    } else {
      OnlyAgentMessage(items[1..], k - 1);
    }
  }

  /** The final text is what the single agent message among safe items says. */
  lemma {:induction false} FinalTextExact(m: Json, t: Text)
    ensures FinalText(m) == Some(t) <==> ItemsOf(m).Some? && exists k: nat :: Says(ItemsOf(m).value, k, t)
  {
    if FinalText(m) == Some(t) {
      var items := ItemsOf(m).value;
      var k := OneAgentMessage(items);
      assert Says(items, k, t);
    }
    if ItemsOf(m).Some? && exists k: nat :: Says(ItemsOf(m).value, k, t) {
      var items := ItemsOf(m).value;
      var k: nat :| Says(items, k, t);
      OnlyAgentMessage(items, k);
    }
  }

  // ----- progress -----

  predicate Refers(v: Json, key: Text, expected: Option<Text>)
  {
    match StringField(v, key)
    case Some(s) => IsSafeReference(s) && expected == Some(s)
    case None => false
  }

  predicate FieldSatisfies(v: Json, key: Text, p: Json -> bool)
  {
    match Field(v, key)
    case Some(w) => w.Object? && p(w)
    case None => false
  }

  /** The parameters of a progress event belong to this thread and turn. */
  predicate Correlated(name: Text, params: Json, threadId: Option<Text>, turnId: Option<Text>)
  {
    && params.Object?
    && Refers(params, THREAD_ID, threadId)
    && (name == TOKEN_USAGE || name == TURN_STARTED || Refers(params, TURN_ID, turnId))
    && (name == TURN_STARTED ==>
          FieldSatisfies(params, TURN, (turn: Json) => Refers(turn, ID, turnId) && IsStatus(turn, Ascii("inProgress"))))
    && (name == ITEM_STARTED || name == ITEM_COMPLETED ==> FieldSatisfies(params, ITEM, (item: Json) => SafeItem(item)))
  }

  function ProgressMethod(m: Json, threadId: Option<Text>, turnId: Option<Text>): (r: Option<Text>)
  {
    match (StringField(m, METHOD), Field(m, PARAMS))
    case (Some(name), Some(params)) =>
      if Field(m, ID).None? && name in SAFE_PROGRESS_METHODS && Correlated(name, params, threadId, turnId) then
        Some(name) else None
    case _ => None
  }

  /** The progress walk: as the event walk, with no forbidden keys. */
  function ProgressPolicy(): Policy
  {
    Policy((v: Json) => true, (n: nat) => n <= 256, (keys: seq<Text>) => |keys| <= 64)
  }

  ghost function ProgressOf(
    rules: Rules, m: Json, threadId: Option<Text>, turnId: Option<Text>): (r: Option<Runner.Progress>)
  {
    match (ProgressMethod(m, threadId, turnId), CanonicalJson(rules.sensitive, m))
    case (Some(name), Some(t)) =>
      if Admitted(ProgressPolicy(), m) && |Utf8(t)| <= MAX_EVENT_BYTES
      then Some(Runner.Progress(rules.sha256(t), name == TOKEN_USAGE)) else None
    case _ => None
  }

  method AdmitProgress(
    rules: Rules, m: Json, threadId: Option<Text>, turnId: Option<Text>) returns (r: Option<Runner.Progress>)
    ensures r == ProgressOf(rules, m, threadId, turnId)
  {
    var name := ProgressMethod(m, threadId, turnId);
    if name.None? { return None; }
    var ok, _ := Walk(ProgressPolicy(), m);
    if !ok { return None; }
    match CanonicalJson(rules.sensitive, m) {
      case None => return None;
      case Some(t) =>
        if |Utf8(t)| > MAX_EVENT_BYTES { return None; }
        return Some(Runner.Progress(rules.sha256(t), name.value == TOKEN_USAGE));
    }
  }

  // ----- the run -----

  function Strings(ts: seq<Text>): seq<Json> { seq(|ts|, i requires 0 <= i < |ts| => String(ts[i])) }

  /** The hash of a list of event hashes under a domain. */
  function ListHash(rules: Rules, domain: Text, hashes: seq<Text>): (h: Option<Text>)
  {
    MessageHash(rules,
      Object([Member(Ascii("domain"), String(domain)), Member(Ascii("eventHashes"), Array(Strings(hashes)))]))
  }

  function IdOf(m: Json): (id: Option<int>)
  {
    match Field(m, ID)
    case Some(Integer(n)) => Some(n)
    case _ => None
  }

  function TerminalToken(dispatchId: Text): Text { TOKEN_PREFIX + dispatchId }

  const TOOLS_FORBIDDEN: Text := Ascii("Do not call tools, commands, ") + Ascii("apps, network resources, ")
  const FILES_FORBIDDEN: Text := Ascii("or modify files. ")
  const EXACT_REPLY: Text := Ascii("Reply with exactly this ") + Ascii("token and nothing else: ")

  function ChallengeText(challenge: Text, dispatchId: Text): Text
  {
    Ascii("VentureOS validation ") + challenge + Ascii(". ") + TOOLS_FORBIDDEN + FILES_FORBIDDEN + EXACT_REPLY +
      TerminalToken(dispatchId)
  }

  const PROGRESS_DOMAIN: Text := Ascii("ventureos.") + Ascii("codex-validation.") + Ascii("progress.v1")
  const TOKEN_DOMAIN: Text := Ascii("ventureos.") + Ascii("codex-validation.") + Ascii("token-usage.v1")

  ghost function JsonWire(rules: Rules, challenge: Text, dispatchId: Text): Runner.Wire<Json>
  {
    Runner.Wire(
      JsonReader(rules),
      (m: Json) => Field(m, ID).Some?,
      (m: Json) => IdOf(m),
      (m: Json) => StringField(m, METHOD) == Some(TURN_COMPLETED),
      (m: Json) => FinalText(m),
      (m: Json, threadId: Option<Text>, turnId: Option<Text>) => ProgressOf(rules, m, threadId, turnId),
      (hashes: seq<Text>) => ListHash(rules, PROGRESS_DOMAIN, hashes),
      (hashes: seq<Text>) => ListHash(rules, TOKEN_DOMAIN, hashes),
      ChallengeText(challenge, dispatchId),
      TerminalToken(dispatchId))
  }

  /** The run ended, unaborted, on a message whose one agent message is the dispatch token. */
  ghost predicate EndedOnToken(r: Runner.Runner<Json>, dispatchId: Text)
  {
    && !r.aborted && |r.journal| == 1 && r.journal[0].Ended?
    && match ItemsOf(r.journal[0].message)
       case None => false
       case Some(items) => exists k: nat :: Says(items, k, TerminalToken(dispatchId))
  }

  lemma {:induction false} SoundEndsOnToken(
    wire: Runner.Wire<Json>, deadline: int, dispatchId: Text, r: Runner.Runner<Json>, e: Runner.Evidence)
    requires Runner.Sound(wire, deadline, r, e) && e.status == Completed
    requires wire.token == TerminalToken(dispatchId) && forall m :: wire.finalText(m) == FinalText(m)
    ensures EndedOnToken(r, dispatchId)
  {
    FinalTextExact(r.journal[0].message, TerminalToken(dispatchId));
  }

  /**
   * A run that returns `completed` ended, uninterrupted, with a message whose only agent message is
   * the dispatch token and whose other items are safe.
   */
  lemma {:induction false} CompletedMeansToken(
    rules: Rules, challenge: Text, dispatchId: Text, deadline: int, events: seq<Runner.Event<Json>>)
    ensures var wire := JsonWire(rules, challenge, dispatchId);
            var last := Runner.Run(wire, deadline, Runner.Start(wire), events);
            match last.stage
            case Over(Returned(e)) => e.status == Completed ==> EndedOnToken(last, dispatchId)
            case _ => true
  {
    var wire := JsonWire(rules, challenge, dispatchId);
    Runner.EveryRunIsSound(wire, deadline, events);
    var last := Runner.Run(wire, deadline, Runner.Start(wire), events);
    match last.stage {
      case Over(Returned(e)) => if e.status == Completed { SoundEndsOnToken(wire, deadline, dispatchId, last, e); }
      case _ =>
    }
  }
}
