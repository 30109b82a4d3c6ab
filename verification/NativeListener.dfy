/**
 * Descriptor ownership in the native listener. The listener, its sessions and its asynchronous
 * operations each hold descriptors; calls, worker threads, abort callbacks, completions and
 * finalizers move and close them. The state records every descriptor ever issued and every close.
 */
module NativeListener {
  import opened Outcomes

  type Descriptor = Option<nat>

  datatype Listener = Listener(
    descriptor: Descriptor, active: bool, creationObserved: bool, acceptConsumed: bool,
    operationActive: bool, sessionActive: bool, freed: bool)

  /** `linked` stands for the pointer and the strong reference to the listener. */
  datatype Session = Session(descriptor: Descriptor, phase: nat, operationActive: bool, linked: bool, freed: bool)

  datatype Kind = Accepting | Using(session: nat)

  /** An operation is live from queueing to completion; `executed` says that its worker has finished. */
  datatype Operation = Operation(
    kind: Kind, live: bool, wake: Descriptor, marker: Descriptor, accepted: Descriptor, cancelled: bool, executed: bool,
    failed: bool)

  datatype State = State(
    listener: Listener, sessions: seq<Session>, operations: seq<Operation>, issued: nat, closed: multiset<nat>)

  /** A listener has just been bound and wrapped: descriptor 0 is its socket. */
  const CREATED: State := State(Listener(Some(0), true, false, false, false, false, false), [], [], 1, multiset{})

  // ----- what is held -----

  /** How often a field holds descriptor `d`: once or not at all. */
  function Is(field: Descriptor, d: nat): (n: nat) { if field == Some(d) then 1 else 0 }

  function One(field: Descriptor): (m: multiset<nat>)
    ensures forall d: nat :: m[d] == Is(field, d)
  {
    match field
    case None => multiset{}
    case Some(d) => multiset{d}
  }

  function InOperation(o: Operation, d: nat): nat { Is(o.wake, d) + Is(o.marker, d) + Is(o.accepted, d) }

  function InSessions(ss: seq<Session>, d: nat): (n: nat)
  {
    if ss == [] then 0 else InSessions(ss[..|ss| - 1], d) + Is(ss[|ss| - 1].descriptor, d)
  }

  function InOperations(os: seq<Operation>, d: nat): (n: nat)
  {
    if os == [] then 0 else InOperations(os[..|os| - 1], d) + InOperation(os[|os| - 1], d)
  }

  /** The number of fields that hold `d`. */
  function Holders(s: State, d: nat): (n: nat)
  {
    Is(s.listener.descriptor, d) + InSessions(s.sessions, d) + InOperations(s.operations, d)
  }

  /** A descriptor that has been issued is either held by one field or has been closed, once. */
  ghost predicate Balanced(s: State, d: nat)
  {
    Holders(s, d) + s.closed[d] == if d < s.issued then 1 else 0
  }

  // ----- events -----

  /** How far setting an operation up got: not to the pipe, to the pipe only, or into the queue. */
  datatype Setup = NoPipe | Undone | Queued

  /** How far making the session object got: nothing taken over, taken over and undone, or made. */
  datatype Making = Bare | Undoing | Made

  datatype Event =
    | Observe
    | Accept(setup: Setup)
    | Credentials(session: nat)
    | Read(session: nat, setup: Setup)
    | Write(session: nat, setup: Setup)
    | Close(session: nat)
    | Abort(operation: nat, broken: bool)
    | Executes(operation: nat, success: bool)
    | Completes(operation: nat, ok: bool, making: Making)
    | Cleanup
    | FinalizeSession(session: nat)
    | FinalizeListener

  // ----- steps -----

  function Release(s: State, d: Descriptor): State { s.(closed := s.closed + One(d)) }

  /** The pipe of an operation, and the operation itself if it was queued. */
  function Queue(s: State, kind: Kind, setup: Setup): (r: State)
  {
    match setup
    case NoPipe => s
    case Undone => s.(issued := s.issued + 2, closed := s.closed + One(Some(s.issued)) + One(Some(s.issued + 1)))
    case Queued =>
      var o := Operation(kind, true, Some(s.issued), Some(s.issued + 1), None, false, false, false);
      s.(operations := s.operations + [o], issued := s.issued + 2)
  }

  function BeginAccept(s: State, setup: Setup): (r: State)
  {
    var l := s.listener;
    if l.freed || !l.active || !l.creationObserved || l.acceptConsumed || l.operationActive || l.sessionActive then s
    else Queue(s.(listener := l.(acceptConsumed := true, operationActive := setup == Queued)), Accepting, setup)
  }

  predicate Callable(s: State, i: nat, phase: nat)
  {
    i < |s.sessions| && !s.sessions[i].freed && s.sessions[i].phase == phase && !s.sessions[i].operationActive
  }

  function BeginUse(s: State, i: nat, phase: nat, setup: Setup): (r: State)
  {
    if !Callable(s, i, phase) then s
    else Queue(s.(sessions := s.sessions[i := s.sessions[i].(phase := phase + 1, operationActive := setup == Queued)]),
      Using(i), setup)
  }

  /** Closing a session returns its descriptor and lets go of the listener. */
  function CloseSession(s: State, i: nat): (r: State)
    requires i < |s.sessions|
  {
    var session := s.sessions[i];
    s.(sessions := s.sessions[i := session.(descriptor := None, linked := false, phase := 3)],
       listener := if session.linked then s.listener.(sessionActive := false) else s.listener,
       closed := s.closed + One(session.descriptor))
  }

  /** The abort callback; a broken pipe end is closed here. */
  function AbortOperation(s: State, k: nat, broken: bool): (r: State)
  {
    if k >= |s.operations| || !s.operations[k].live then s
    else
      var o := s.operations[k].(cancelled := true);
      if broken then Release(s.(operations := s.operations[k := o.(marker := None)]), o.marker)
      else s.(operations := s.operations[k := o])
  }

  /** The worker: accepting issues a descriptor to the operation. */
  function Execute(s: State, k: nat, success: bool): (r: State)
  {
    if k >= |s.operations| || !s.operations[k].live || s.operations[k].executed then s
    else
      var o := s.operations[k].(executed := true, failed := !success);
      if success && o.kind == Accepting
      then s.(operations := s.operations[k := o.(accepted := Some(s.issued))], issued := s.issued + 1)
      else s.(operations := s.operations[k := o])
  }

  /** The owner of a completing operation is free again. */
  function Unblock(s: State, kind: Kind): (r: State)
  {
    match kind
    case Accepting => s.(listener := s.listener.(operationActive := false))
    case Using(i) =>
      if i < |s.sessions| then s.(sessions := s.sessions[i := s.sessions[i].(operationActive := false)]) else s
  }

  /** A session takes over the accepted descriptor; if it cannot be wrapped, it closes it at once. */
  function MakeSession(s: State, d: Descriptor, making: Making): (r: State)
  {
    match making
    case Bare => Release(s, d)
    case Undoing => Release(s.(listener := s.listener.(sessionActive := false)), d)
    case Made =>
      s.(sessions := s.sessions + [Session(d, 0, false, true, false)], listener := s.listener.(sessionActive := true))
  }

  /** An operation that is over; what it accepted is no longer its own. */
  function Ended(s: State, k: nat): (r: State)
    requires k < |s.operations|
  {
    var o := s.operations[k];
    s.(operations := s.operations[k := o.(live := false, wake := None, marker := None, accepted := None)],
       closed := s.closed + One(o.wake) + One(o.marker))
  }

  /** Completion: the session is made, or whatever was accepted is closed, and both pipe ends are closed. */
  function Complete(s: State, k: nat, ok: bool, making: Making): (r: State)
  {
    if k >= |s.operations| || !s.operations[k].live || (ok && !s.operations[k].executed) then s
    else
      var o := s.operations[k];
      var t := Unblock(Ended(s, k), o.kind);
      if ok && !o.failed && !o.cancelled && o.kind == Accepting then MakeSession(t, o.accepted, making)
      else Release(t, o.accepted)
  }

  function CleanUp(s: State): (r: State)
  {
    var l := s.listener;
    if l.freed || !l.active || l.operationActive || l.sessionActive then s
    else Release(s.(listener := l.(descriptor := None, active := false)), l.descriptor)
  }

  /** A finalizer runs only when no strong reference is left: from operations, and from linked sessions. */
  predicate Referenced(s: State, kind: Kind)
  {
    (exists k :: 0 <= k < |s.operations| && s.operations[k].live && s.operations[k].kind == kind) ||
    (kind == Accepting && exists i :: 0 <= i < |s.sessions| && s.sessions[i].linked)
  }

  function Finalize(s: State, i: nat): (r: State)
  {
    if i >= |s.sessions| || s.sessions[i].freed || Referenced(s, Using(i)) then s
    else
      var t := CloseSession(s, i);
      t.(sessions := t.sessions[i := t.sessions[i].(freed := true)])
  }

  function FinalizeOwner(s: State): (r: State)
  {
    if s.listener.freed || Referenced(s, Accepting) then s
    else Release(s.(listener := s.listener.(descriptor := None, active := false, freed := true)), s.listener.descriptor)
  }

  function Apply(s: State, e: Event): (r: State)
  {
    match e
    case Observe =>
      if s.listener.freed || !s.listener.active then s else s.(listener := s.listener.(creationObserved := true))
    case Accept(setup) => BeginAccept(s, setup)
    case Credentials(i) => if Callable(s, i, 0) then s.(sessions := s.sessions[i := s.sessions[i].(phase := 1)]) else s
    case Read(i, setup) => BeginUse(s, i, 1, setup)
    case Write(i, setup) => BeginUse(s, i, 2, setup)
    case Close(i) =>
      if i < |s.sessions| && !s.sessions[i].freed && !s.sessions[i].operationActive && s.sessions[i].descriptor.Some?
      then CloseSession(s, i) else s
    case Abort(k, broken) => AbortOperation(s, k, broken)
    case Executes(k, success) => Execute(s, k, success)
    case Completes(k, ok, making) => Complete(s, k, ok, making)
    case Cleanup => CleanUp(s)
    case FinalizeSession(i) => Finalize(s, i)
    case FinalizeListener => FinalizeOwner(s)
  }

  function Run(s: State, events: seq<Event>): (r: State)
    decreases |events|
  {
    if events == [] then s else Run(Apply(s, events[0]), events[1..])
  }

  // ----- conservation -----

  lemma {:induction false} SessionReplaced(ss: seq<Session>, i: nat, session: Session, d: nat)
    requires i < |ss|
    ensures InSessions(ss[i := session], d) + Is(ss[i].descriptor, d) == InSessions(ss, d) + Is(session.descriptor, d)
    decreases |ss|
  {
    var n := |ss| - 1;
    if i == n {
      assert ss[i := session][..n] == ss[..n];
    } else {
      SessionReplaced(ss[..n], i, session, d);
      assert ss[i := session][..n] == ss[..n][i := session];
    }
  }

  lemma {:induction false} OperationReplaced(os: seq<Operation>, k: nat, o: Operation, d: nat)
    requires k < |os|
    ensures InOperations(os[k := o], d) + InOperation(os[k], d) == InOperations(os, d) + InOperation(o, d)
    decreases |os|
  {
    var n := |os| - 1;
    if k == n {
      assert os[k := o][..n] == os[..n];
    } else {
      OperationReplaced(os[..n], k, o, d);
      assert os[k := o][..n] == os[..n][k := o];
    }
  }

  lemma {:induction false} OperationAdded(os: seq<Operation>, o: Operation, d: nat)
    ensures InOperations(os + [o], d) == InOperations(os, d) + InOperation(o, d)
  {
    assert (os + [o])[..|os|] == os;
  }

  lemma {:induction false} SessionAdded(ss: seq<Session>, session: Session, d: nat)
    ensures InSessions(ss + [session], d) == InSessions(ss, d) + Is(session.descriptor, d)
  {
    assert (ss + [session])[..|ss|] == ss;
  }

  lemma {:induction false} QueueBalances(s: State, kind: Kind, setup: Setup, d: nat)
    requires Balanced(s, d)
    ensures Balanced(Queue(s, kind, setup), d)
  {
    OperationAdded(s.operations, Operation(kind, true, Some(s.issued), Some(s.issued + 1), None, false, false, false),
      d);
  }

  /** Changing a session without touching its descriptor. */
  lemma {:induction false} SessionTouched(s: State, i: nat, session: Session, d: nat)
    requires Balanced(s, d) && i < |s.sessions| && session.descriptor == s.sessions[i].descriptor
    ensures Balanced(s.(sessions := s.sessions[i := session]), d)
  {
    SessionReplaced(s.sessions, i, session, d);
  }

  lemma {:induction false} CloseBalances(s: State, i: nat, d: nat)
    requires Balanced(s, d) && i < |s.sessions|
    ensures Balanced(CloseSession(s, i), d)
  {
    SessionReplaced(s.sessions, i, s.sessions[i].(descriptor := None, linked := false, phase := 3), d);
  }

  lemma {:induction false} AbortBalances(s: State, k: nat, broken: bool, d: nat)
    requires Balanced(s, d)
    ensures Balanced(AbortOperation(s, k, broken), d)
  {
    if k < |s.operations| {
      var o := s.operations[k].(cancelled := true);
      OperationReplaced(s.operations, k, o, d);
      OperationReplaced(s.operations, k, o.(marker := None), d);
    }
  }

  lemma {:induction false} ExecuteBalances(s: State, k: nat, success: bool, d: nat)
    requires Balanced(s, d) && (k < |s.operations| && !s.operations[k].executed ==> s.operations[k].accepted == None)
    ensures Balanced(Execute(s, k, success), d)
  {
    if k < |s.operations| {
      var o := s.operations[k].(executed := true, failed := !success);
      OperationReplaced(s.operations, k, o, d);
      OperationReplaced(s.operations, k, o.(accepted := Some(s.issued)), d);
    }
  }

  lemma {:induction false} UnblockKeeps(s: State, kind: Kind, d: nat)
    ensures var t := Unblock(s, kind);
            && InSessions(t.sessions, d) == InSessions(s.sessions, d) && t.listener.descriptor == s.listener.descriptor
            && t.operations == s.operations && t.issued == s.issued && t.closed == s.closed
  {
    match kind {
      case Accepting =>
      case Using(i) =>
        if i < |s.sessions| { SessionReplaced(s.sessions, i, s.sessions[i].(operationActive := false), d); }
    }
  }

  lemma {:induction false} MakeBalances(s: State, field: Descriptor, making: Making, d: nat)
    requires Holders(s, d) + s.closed[d] + Is(field, d) == if d < s.issued then 1 else 0
    ensures Balanced(MakeSession(s, field, making), d)
  {
    SessionAdded(s.sessions, Session(field, 0, false, true, false), d);
  }

  lemma {:induction false} CompleteBalances(s: State, k: nat, ok: bool, making: Making, d: nat)
    requires Balanced(s, d)
    ensures Balanced(Complete(s, k, ok, making), d)
  {
    if k < |s.operations| {
      var o := s.operations[k];
      OperationReplaced(s.operations, k, o.(live := false, wake := None, marker := None, accepted := None), d);
      UnblockKeeps(Ended(s, k), o.kind, d);
      MakeBalances(Unblock(Ended(s, k), o.kind), o.accepted, making, d);
    }
  }

  // ----- who may use what -----

  /** A live operation's owner is open and blocked, and only a worker that ran has accepted anything. */
  predicate OperationStands(s: State, o: Operation)
  {
    && (!o.executed ==> o.accepted == None)
    && (o.live && o.kind == Accepting && o.executed && !o.failed ==> o.accepted.Some?)
    && (!o.live ==> o.wake == None && o.marker == None && o.accepted == None)
    && (o.kind == Accepting ==> s.listener.acceptConsumed)
    && (o.live ==>
          match o.kind
          case Accepting =>
            s.listener.operationActive && s.listener.descriptor.Some? && !s.listener.freed && s.sessions == []
          case Using(i) => i < |s.sessions| && s.sessions[i].operationActive && s.sessions[i].descriptor.Some?)
  }

  /** Only one operation ever accepts, and live operations have different owners. */
  predicate Apart(os: seq<Operation>)
  {
    forall j, k :: 0 <= j < k < |os| ==>
      (os[j].kind == Accepting ==> os[k].kind != Accepting) &&
      (os[j].live && os[k].live ==> os[j].kind != os[k].kind)
  }

  predicate SessionStands(s: State, session: Session)
  {
    && (session.descriptor.Some? <==> session.linked)
    && (session.phase < 3 ==> session.linked)
    && (session.linked ==> s.listener.sessionActive && !session.freed && !s.listener.freed)
  }

  ghost predicate Inv(s: State)
  {
    && (forall k :: 0 <= k < |s.operations| ==> OperationStands(s, s.operations[k]))
    && Apart(s.operations)
    && (forall i :: 0 <= i < |s.sessions| ==> SessionStands(s, s.sessions[i]))
    && |s.sessions| <= 1 && (s.sessions != [] ==> s.listener.acceptConsumed)
    && (s.listener.sessionActive ==> |s.sessions| == 1 && s.sessions[0].linked)
    && (s.listener.active ==> s.listener.descriptor.Some?)
  }

  /** A new operation whose owner is ready for it. */
  lemma {:induction false} QueueKeeps(s: State, kind: Kind, setup: Setup)
    requires Inv(s)
    requires forall k :: 0 <= k < |s.operations| ==> s.operations[k].live ==> s.operations[k].kind != kind
    requires kind == Accepting ==> forall k :: 0 <= k < |s.operations| ==> s.operations[k].kind != Accepting
    requires setup == Queued ==>
             OperationStands(s, Operation(kind, true, Some(s.issued), Some(s.issued + 1), None, false, false, false))
    ensures Inv(Queue(s, kind, setup))
  {
    var t := Queue(s, kind, setup);
    forall k | 0 <= k < |t.operations| ensures OperationStands(t, t.operations[k]) {
      if k < |s.operations| { assert OperationStands(s, s.operations[k]); }
    }
  }

  lemma {:induction false} AcceptKeeps(s: State, setup: Setup)
    requires Inv(s)
    ensures Inv(BeginAccept(s, setup))
  {
    var l := s.listener;
    if !(l.freed || !l.active || !l.creationObserved || l.acceptConsumed || l.operationActive || l.sessionActive) {
      var t := s.(listener := l.(acceptConsumed := true, operationActive := setup == Queued));
      forall k | 0 <= k < |s.operations| ensures OperationStands(t, s.operations[k]) &&
        s.operations[k].kind != Accepting {
        assert OperationStands(s, s.operations[k]);
      }
      QueueKeeps(t, Accepting, setup);
    }
  }

  lemma {:induction false} UseKeeps(s: State, i: nat, phase: nat, setup: Setup)
    requires Inv(s) && (phase == 1 || phase == 2)
    ensures Inv(BeginUse(s, i, phase, setup))
  {
    if Callable(s, i, phase) {
      assert SessionStands(s, s.sessions[i]);
      var t := s.(sessions := s.sessions[i := s.sessions[i].(phase := phase + 1, operationActive := setup == Queued)]);
      forall k | 0 <= k < |s.operations|
        ensures OperationStands(t, s.operations[k]) && (s.operations[k].live ==> s.operations[k].kind != Using(i))
      {
        assert OperationStands(s, s.operations[k]);
      }
      QueueKeeps(t, Using(i), setup);
    }
  }

  /** A session without a live operation may be closed. */
  lemma {:induction false} CloseKeeps(s: State, i: nat)
    requires Inv(s) && i < |s.sessions|
    requires forall k :: 0 <= k < |s.operations| ==> s.operations[k].live ==> s.operations[k].kind != Using(i)
    ensures Inv(CloseSession(s, i))
  {
    var t := CloseSession(s, i);
    forall k | 0 <= k < |s.operations| ensures OperationStands(t, t.operations[k]) {
      assert OperationStands(s, s.operations[k]);
    }
    forall j | 0 <= j < |t.sessions| ensures SessionStands(t, t.sessions[j]) {
      assert SessionStands(s, s.sessions[j]);
    }
  }

  /** Replacing an operation by one that stands where it stood. */
  lemma {:induction false} ReplaceKeeps(s: State, k: nat, o: Operation, issued: nat, closed: multiset<nat>)
    requires Inv(s) && k < |s.operations| && OperationStands(s, o)
    requires o.kind == s.operations[k].kind && (o.live ==> s.operations[k].live)
    ensures Inv(s.(operations := s.operations[k := o], issued := issued, closed := closed))
  {
    var t := s.(operations := s.operations[k := o], issued := issued, closed := closed);
    forall j | 0 <= j < |t.operations| ensures OperationStands(t, t.operations[j]) {
      assert OperationStands(s, s.operations[j]);
    }
    forall i | 0 <= i < |t.sessions| ensures SessionStands(t, t.sessions[i]) {
      assert SessionStands(s, s.sessions[i]);
    }
  }

  lemma {:induction false} AbortKeeps(s: State, k: nat, broken: bool)
    requires Inv(s)
    ensures Inv(AbortOperation(s, k, broken))
  {
    if k < |s.operations| && s.operations[k].live {
      var o := s.operations[k].(cancelled := true);
      assert OperationStands(s, s.operations[k]);
      ReplaceKeeps(s, k, o, s.issued, s.closed);
      ReplaceKeeps(s, k, o.(marker := None), s.issued, s.closed + One(o.marker));
    }
  }

  lemma {:induction false} ExecuteKeeps(s: State, k: nat, success: bool)
    requires Inv(s)
    ensures Inv(Execute(s, k, success))
  {
    if k < |s.operations| && s.operations[k].live && !s.operations[k].executed {
      var o := s.operations[k].(executed := true, failed := !success);
      assert OperationStands(s, s.operations[k]);
      if success && o.kind == Accepting {
        ReplaceKeeps(s, k, o.(accepted := Some(s.issued)), s.issued + 1, s.closed);
      } else {
        ReplaceKeeps(s, k, o, s.issued, s.closed);
      }
    }
  }

  /** After its operation has ended, an owner may be unblocked. */
  lemma {:induction false} UnblockKeepsInv(s: State, kind: Kind)
    requires Inv(s)
    requires forall k :: 0 <= k < |s.operations| ==> s.operations[k].live ==> s.operations[k].kind != kind
    ensures Inv(Unblock(s, kind))
  {
    var t := Unblock(s, kind);
    forall k | 0 <= k < |t.operations| ensures OperationStands(t, t.operations[k]) {
      assert OperationStands(s, s.operations[k]);
    }
    forall i | 0 <= i < |t.sessions| ensures SessionStands(t, t.sessions[i]) {
      assert SessionStands(s, s.sessions[i]);
    }
  }

  lemma {:induction false} MakeKeeps(s: State, d: Descriptor, making: Making)
    requires Inv(s) && s.sessions == [] && s.listener.acceptConsumed && !s.listener.freed && d.Some?
    requires forall k :: 0 <= k < |s.operations| ==> s.operations[k].live ==> s.operations[k].kind != Accepting
    ensures Inv(MakeSession(s, d, making))
  {
    var t := MakeSession(s, d, making);
    forall k | 0 <= k < |t.operations| ensures OperationStands(t, t.operations[k]) {
      assert OperationStands(s, s.operations[k]);
    }
  }

  lemma {:induction false} EndKeeps(s: State, k: nat)
    requires Inv(s) && k < |s.operations| && s.operations[k].live
    ensures Inv(Unblock(Ended(s, k), s.operations[k].kind))
    ensures forall j :: 0 <= j < |s.operations| ==> Ended(s, k).operations[j].live ==>
            Ended(s, k).operations[j].kind != s.operations[k].kind
  {
    var o := s.operations[k];
    assert OperationStands(s, o);
    var done := o.(live := false, wake := None, marker := None, accepted := None);
    ReplaceKeeps(s, k, done, s.issued, s.closed + One(o.wake) + One(o.marker));
    var ended := Ended(s, k);
    forall j | 0 <= j < |s.operations| ensures ended.operations[j].live ==> ended.operations[j].kind != o.kind {
      if j < k { assert s.operations[j].live && s.operations[k].live ==> s.operations[j].kind != s.operations[k].kind; }
    }
    UnblockKeepsInv(ended, o.kind);
  }

  lemma {:induction false} ReleaseKeeps(s: State, d: Descriptor)
    requires Inv(s)
    ensures Inv(Release(s, d))
  {
    var t := Release(s, d);
    forall k | 0 <= k < |t.operations| ensures OperationStands(t, t.operations[k]) {
      assert OperationStands(s, s.operations[k]);
    }
    forall i | 0 <= i < |t.sessions| ensures SessionStands(t, t.sessions[i]) { assert SessionStands(s, s.sessions[i]); }
  }

  lemma {:induction false} CompleteKeeps(s: State, k: nat, ok: bool, making: Making)
    requires Inv(s)
    ensures Inv(Complete(s, k, ok, making))
  {
    if k < |s.operations| && s.operations[k].live && (ok ==> s.operations[k].executed) {
      var o := s.operations[k];
      assert OperationStands(s, o);
      EndKeeps(s, k);
      var t := Unblock(Ended(s, k), o.kind);
      if ok && !o.failed && !o.cancelled && o.kind == Accepting {
        MakeKeeps(t, o.accepted, making);
      } else {
        ReleaseKeeps(t, o.accepted);
      }
    }
  }

  lemma {:induction false} CleanUpKeeps(s: State)
    requires Inv(s)
    ensures Inv(CleanUp(s))
  {
    var t := CleanUp(s);
    forall k | 0 <= k < |t.operations| ensures OperationStands(t, t.operations[k]) {
      assert OperationStands(s, s.operations[k]);
    }
    forall i | 0 <= i < |t.sessions| ensures SessionStands(t, t.sessions[i]) { assert SessionStands(s, s.sessions[i]); }
  }

  lemma {:induction false} FinalizeKeeps(s: State, i: nat)
    requires Inv(s)
    ensures Inv(Finalize(s, i))
  {
    if i < |s.sessions| && !s.sessions[i].freed && !Referenced(s, Using(i)) {
      CloseKeeps(s, i);
      var t := CloseSession(s, i);
      var u := t.(sessions := t.sessions[i := t.sessions[i].(freed := true)]);
      forall k | 0 <= k < |u.operations| ensures OperationStands(u, u.operations[k]) {
        assert OperationStands(t, t.operations[k]);
      }
      forall j | 0 <= j < |u.sessions| ensures SessionStands(u, u.sessions[j]) {
        assert SessionStands(t, t.sessions[j]);
      }
    }
  }

  lemma {:induction false} FinalizeOwnerKeeps(s: State)
    requires Inv(s)
    ensures Inv(FinalizeOwner(s))
  {
    var t := FinalizeOwner(s);
    if !s.listener.freed && !Referenced(s, Accepting) {
      forall k | 0 <= k < |t.operations| ensures OperationStands(t, t.operations[k]) {
        assert OperationStands(s, s.operations[k]);
        assert s.operations[k].live ==> s.operations[k].kind != Accepting;
      }
      forall i | 0 <= i < |t.sessions| ensures SessionStands(t, t.sessions[i]) {
        assert SessionStands(s, s.sessions[i]);
        assert !s.sessions[i].linked;
      }
    }
  }

  /** Changing flags that no invariant reads. */
  lemma {:induction false} ObserveKeeps(s: State)
    requires Inv(s)
    ensures Inv(Apply(s, Observe))
  {
    var t := Apply(s, Observe);
    forall k | 0 <= k < |t.operations| ensures OperationStands(t, t.operations[k]) {
      assert OperationStands(s, s.operations[k]);
    }
    forall i | 0 <= i < |t.sessions| ensures SessionStands(t, t.sessions[i]) { assert SessionStands(s, s.sessions[i]); }
  }

  lemma {:induction false} CredentialsKeeps(s: State, i: nat)
    requires Inv(s)
    ensures Inv(Apply(s, Credentials(i)))
  {
    var t := Apply(s, Credentials(i));
    forall k | 0 <= k < |t.operations| ensures OperationStands(t, t.operations[k]) {
      assert OperationStands(s, s.operations[k]);
    }
    forall j | 0 <= j < |t.sessions| ensures SessionStands(t, t.sessions[j]) { assert SessionStands(s, s.sessions[j]); }
  }

  lemma {:induction false} CloseCallKeeps(s: State, i: nat)
    requires Inv(s)
    ensures Inv(Apply(s, Close(i)))
  {
    if i < |s.sessions| && !s.sessions[i].operationActive {
      forall k | 0 <= k < |s.operations| ensures s.operations[k].live ==> s.operations[k].kind != Using(i) {
        assert OperationStands(s, s.operations[k]);
      }
      CloseKeeps(s, i);
    }
  }

  lemma {:induction false} ApplyKeeps(s: State, e: Event)
    requires Inv(s)
    ensures Inv(Apply(s, e))
  {
    match e {
      case Observe => ObserveKeeps(s);
      case Accept(setup) => AcceptKeeps(s, setup);
      case Credentials(i) => CredentialsKeeps(s, i);
      case Read(i, setup) => UseKeeps(s, i, 1, setup);
      case Write(i, setup) => UseKeeps(s, i, 2, setup);
      case Close(i) => CloseCallKeeps(s, i);
      case Abort(k, broken) => AbortKeeps(s, k, broken);
      case Executes(k, success) => ExecuteKeeps(s, k, success);
      case Completes(k, ok, making) => CompleteKeeps(s, k, ok, making);
      case Cleanup => CleanUpKeeps(s);
      case FinalizeSession(i) => FinalizeKeeps(s, i);
      case FinalizeListener => FinalizeOwnerKeeps(s);
    }
  }

  lemma {:induction false} UseBalances(s: State, i: nat, phase: nat, setup: Setup, d: nat)
    requires Balanced(s, d)
    ensures Balanced(BeginUse(s, i, phase, setup), d)
  {
    if Callable(s, i, phase) {
      var session := s.sessions[i].(phase := phase + 1, operationActive := setup == Queued);
      SessionTouched(s, i, session, d);
      QueueBalances(s.(sessions := s.sessions[i := session]), Using(i), setup, d);
    }
  }

  lemma {:induction false} FinalizeBalances(s: State, i: nat, d: nat)
    requires Balanced(s, d)
    ensures Balanced(Finalize(s, i), d)
  {
    if i < |s.sessions| {
      CloseBalances(s, i, d);
      var t := CloseSession(s, i);
      SessionTouched(t, i, t.sessions[i].(freed := true), d);
    }
  }

  lemma {:induction false} ApplyBalances(s: State, e: Event, d: nat)
    requires Inv(s) && Balanced(s, d)
    ensures Balanced(Apply(s, e), d)
  {
    match e {
      case Observe =>
      case Accept(setup) =>
        QueueBalances(s.(listener := s.listener.(acceptConsumed := true, operationActive := setup == Queued)),
          Accepting, setup, d);
      case Credentials(i) => if i < |s.sessions| { SessionTouched(s, i, s.sessions[i].(phase := 1), d); }
      case Read(i, setup) => UseBalances(s, i, 1, setup, d);
      case Write(i, setup) => UseBalances(s, i, 2, setup, d);
      case Close(i) => if i < |s.sessions| { CloseBalances(s, i, d); }
      case Abort(k, broken) => AbortBalances(s, k, broken, d);
      case Executes(k, success) =>
        if k < |s.operations| { assert OperationStands(s, s.operations[k]); }
        ExecuteBalances(s, k, success, d);
      case Completes(k, ok, making) => CompleteBalances(s, k, ok, making, d);
      case Cleanup =>
      case FinalizeSession(i) => FinalizeBalances(s, i, d);
      case FinalizeListener =>
    }
  }

  // ----- every run -----

  lemma {:induction false} RunKeeps(s: State, events: seq<Event>, d: nat)
    requires Inv(s) && Balanced(s, d)
    ensures Inv(Run(s, events)) && Balanced(Run(s, events), d)
    decreases |events|
  {
    if events != [] {
      ApplyKeeps(s, events[0]);
      ApplyBalances(s, events[0], d);
      RunKeeps(Apply(s, events[0]), events[1..], d);
    }
  }

  /**
   * In every run each descriptor issued so far is held by exactly one field and has never been
   * closed, or is held by none and has been closed exactly once.
   */
  lemma {:induction false} OneOwnerOneClose(events: seq<Event>, d: nat)
    ensures var s := Run(CREATED, events);
            if d < s.issued then (Holders(s, d) == 1 && s.closed[d] == 0) || (Holders(s, d) == 0 && s.closed[d] == 1)
            else Holders(s, d) == 0 && s.closed[d] == 0
  {
    assert Balanced(CREATED, d);
    RunKeeps(CREATED, events, d);
  }

  /** A descriptor that an operation may use on its worker thread is open while the operation is live. */
  predicate UsesOpenDescriptor(s: State, o: Operation)
  {
    match o.kind
    case Accepting => s.listener.descriptor.Some?
    case Using(i) => i < |s.sessions| && s.sessions[i].descriptor.Some?
  }

  /**
   * In every run at most one session is ever made, no worker is left with a closed descriptor, and an
   * owned cleanup that proceeds finds no live accept, no session that holds a descriptor and so no
   * live operation at all.
   */
  lemma {:induction false} OneSessionAndIdleCleanup(events: seq<Event>)
    ensures var s := Run(CREATED, events);
            && |s.sessions| <= 1
            && (forall k :: 0 <= k < |s.operations| && s.operations[k].live ==> UsesOpenDescriptor(s, s.operations[k]))
            && (Apply(s, Cleanup) != s ==>
                  (forall k :: 0 <= k < |s.operations| ==> !s.operations[k].live) &&
                  (forall i :: 0 <= i < |s.sessions| ==> s.sessions[i].descriptor.None?))
  {
    assert Balanced(CREATED, 0);
    RunKeeps(CREATED, events, 0);
    var s := Run(CREATED, events);
    assert forall k :: 0 <= k < |s.operations| ==> OperationStands(s, s.operations[k]);
    assert forall i :: 0 <= i < |s.sessions| ==> SessionStands(s, s.sessions[i]);
  }

  /**
   * Nothing leaks: once the operations are over, the sessions closed and the listener cleaned up,
   * every descriptor is closed.
   */
  lemma {:induction false} EverythingIsClosed(events: seq<Event>, d: nat)
    requires var s := Run(CREATED, events);
             && s.listener.descriptor == None && d < s.issued
             && (forall k :: 0 <= k < |s.operations| ==> !s.operations[k].live)
             && (forall i :: 0 <= i < |s.sessions| ==> s.sessions[i].descriptor.None?)
    ensures Run(CREATED, events).closed[d] == 1
  {
    assert Balanced(CREATED, d);
    RunKeeps(CREATED, events, d);
    var s := Run(CREATED, events);
    forall k | 0 <= k < |s.operations| ensures InOperation(s.operations[k], d) == 0 {
      assert OperationStands(s, s.operations[k]);
    }
    NoOperationHolds(s.operations, d);
    NoSessionHolds(s.sessions, d);
  }

  lemma {:induction false} NoOperationHolds(os: seq<Operation>, d: nat)
    requires forall k :: 0 <= k < |os| ==> InOperation(os[k], d) == 0
    ensures InOperations(os, d) == 0
  {
    if os != [] { NoOperationHolds(os[..|os| - 1], d); }
  }

  lemma {:induction false} NoSessionHolds(ss: seq<Session>, d: nat)
    requires forall i :: 0 <= i < |ss| ==> ss[i].descriptor.None?
    ensures InSessions(ss, d) == 0
  {
    if ss != [] { NoSessionHolds(ss[..|ss| - 1], d); }
  }

  // ----- the structs in place -----

  /** The listener's fields, the sessions and the operations, changed field by field. */
  class Native {
    var descriptor: Descriptor
    var active: bool
    var creationObserved: bool
    var acceptConsumed: bool
    var operationActive: bool
    var sessionActive: bool
    var freed: bool
    var sessions: seq<Session>
    var operations: seq<Operation>
    var issued: nat
    var closed: multiset<nat>

    function Value(): (s: State)
      reads this
    {
      State(Listener(descriptor, active, creationObserved, acceptConsumed, operationActive, sessionActive, freed),
            sessions, operations, issued, closed)
    }

    /** No descriptor is lost, held twice or closed twice. */
    ghost predicate Valid()
      reads this
    {
      Inv(Value()) && forall d: nat :: Balanced(Value(), d)
    }

    constructor ()
      ensures Value() == CREATED && Valid()
    {
      descriptor, active, creationObserved, acceptConsumed := Some(0), true, false, false;
      operationActive, sessionActive, freed := false, false, false;
      sessions, operations, issued, closed := [], [], 1, multiset{};
      new;
      assert Value() == CREATED;
    }

    /** A fresh descriptor from the kernel. */
    method Open() returns (d: Descriptor)
      modifies this`issued
      ensures d == Some(old(issued)) && issued == old(issued) + 1
    {
      d := Some(issued);
      issued := issued + 1;
    }

    method CloseDescriptor(d: Descriptor)
      modifies this`closed
      ensures closed == old(closed) + One(d)
    {
      if d.Some? { closed := closed + One(d); }
    }

    /** The two ends of a wake-up pipe. */
    method Pipe() returns (wake: Descriptor, marker: Descriptor)
      modifies this`issued
      ensures wake == Some(old(issued)) && marker == Some(old(issued) + 1) && issued == old(issued) + 2
    {
      wake := Open();
      marker := Open();
    }

    /** A pipe whose operation could not be queued. */
    method UndoPipe()
      modifies this`issued, this`closed
      ensures issued == old(issued) + 2 && closed == old(closed) + One(Some(old(issued))) + One(Some(old(issued) + 1))
    {
      var wake, marker := Pipe();
      CloseDescriptor(wake);
      CloseDescriptor(marker);
    }

    method AddOperation(kind: Kind)
      modifies this`operations, this`issued
      ensures Value() == Queue(old(Value()), kind, Queued)
    {
      var wake, marker := Pipe();
      operations := operations + [Operation(kind, true, wake, marker, None, false, false, false)];
    }

    method QueueOperation(kind: Kind, setup: Setup)
      modifies this`operations, this`issued, this`closed
      ensures Value() == Queue(old(Value()), kind, setup)
    {
      if setup == Queued {
        AddOperation(kind);
      } else if setup == Undone {
        UndoPipe();
      }
    }

    method AcceptSession(setup: Setup)
      modifies this
      ensures Value() == Apply(old(Value()), Accept(setup))
    {
      if freed || !active || !creationObserved || acceptConsumed || operationActive || sessionActive { return; }
      acceptConsumed := true;
      QueueOperation(Accepting, setup);
      if setup == Queued { operationActive := true; }
    }

    method CloseSessionState(i: nat)
      requires i < |sessions|
      modifies this
      ensures Value() == CloseSession(old(Value()), i)
    {
      var session := sessions[i];
      CloseDescriptor(session.descriptor);
      if session.linked { sessionActive := false; }
      sessions := sessions[i := session.(descriptor := None, linked := false, phase := 3)];
    }

    method CreateSession(d: Descriptor, making: Making)
      modifies this
      ensures Value() == MakeSession(old(Value()), d, making)
    {
      match making {
        case Bare => CloseDescriptor(d);
        case Undoing =>
          CloseDescriptor(d);
          sessionActive := false;
        case Made =>
          sessions := sessions + [Session(d, 0, false, true, false)];
          sessionActive := true;
      }
    }

    /** Both pipe ends are closed and the operation lets go of what it accepted. */
    method DetachOperation(k: nat)
      requires k < |operations|
      modifies this`operations, this`closed
      ensures Value() == Ended(old(Value()), k)
    {
      var o := operations[k];
      CloseDescriptor(o.wake);
      CloseDescriptor(o.marker);
      operations := operations[k := o.(live := false, wake := None, marker := None, accepted := None)];
    }

    method UnblockOwner(kind: Kind)
      modifies this`operationActive, this`sessions
      ensures Value() == Unblock(old(Value()), kind)
    {
      match kind {
        case Accepting => operationActive := false;
        case Using(i) => if i < |sessions| { sessions := sessions[i := sessions[i].(operationActive := false)]; }
      }
    }

    method CompleteOperation(k: nat, ok: bool, making: Making)
      requires k < |operations| && operations[k].live && (ok ==> operations[k].executed)
      modifies this
      ensures Value() == Complete(old(Value()), k, ok, making)
    {
      var o := operations[k];
      DetachOperation(k);
      UnblockOwner(o.kind);
      if ok && !o.failed && !o.cancelled && o.kind == Accepting {
        CreateSession(o.accepted, making);
      } else {
        CloseDescriptor(o.accepted);
      }
    }

    method CloseAndUnlinkOwned()
      modifies this
      ensures Value() == Apply(old(Value()), Cleanup)
    {
      if freed || !active || operationActive || sessionActive { return; }
      CloseDescriptor(descriptor);
      descriptor := None;
      active := false;
    }

    method ObserveCreation()
      modifies this`creationObserved
      ensures Value() == Apply(old(Value()), Observe)
    {
      if !freed && active { creationObserved := true; }
    }

    method PeerCredentials(i: nat)
      modifies this`sessions
      ensures Value() == Apply(old(Value()), Credentials(i))
    {
      if i >= |sessions| || sessions[i].freed || sessions[i].phase != 0 || sessions[i].operationActive { return; }
      sessions := sessions[i := sessions[i].(phase := 1)];
    }

    /** Reading moves the session from phase 1, writing from phase 2. */
    method UseSession(i: nat, phase: nat, setup: Setup)
      modifies this`sessions, this`operations, this`issued, this`closed
      ensures Value() == BeginUse(old(Value()), i, phase, setup)
    {
      if i >= |sessions| || sessions[i].freed || sessions[i].phase != phase || sessions[i].operationActive { return; }
      ghost var was := sessions;
      sessions := sessions[i := sessions[i].(phase := phase + 1)];
      QueueOperation(Using(i), setup);
      if setup == Queued { sessions := sessions[i := sessions[i].(operationActive := true)]; }
      assert sessions == was[i := was[i].(phase := phase + 1, operationActive := setup == Queued)];
    }

    method SessionClose(i: nat)
      modifies this
      ensures Value() == Apply(old(Value()), Close(i))
    {
      if i >= |sessions| || sessions[i].freed || sessions[i].operationActive || sessions[i].descriptor == None {
        return;
      }
      CloseSessionState(i);
    }

    method CancelOperation(k: nat, broken: bool)
      modifies this`operations, this`closed
      ensures Value() == AbortOperation(old(Value()), k, broken)
    {
      if k >= |operations| || !operations[k].live { return; }
      operations := operations[k := operations[k].(cancelled := true)];
      if broken {
        CloseDescriptor(operations[k].marker);
        operations := operations[k := operations[k].(marker := None)];
      }
    }

    method ExecuteOperation(k: nat, success: bool)
      modifies this`operations, this`issued
      ensures Value() == Execute(old(Value()), k, success)
    {
      if k >= |operations| || !operations[k].live || operations[k].executed { return; }
      operations := operations[k := operations[k].(executed := true, failed := !success)];
      if success && operations[k].kind == Accepting {
        var d := Open();
        operations := operations[k := operations[k].(accepted := d)];
      }
    }

    method ReleaseSession(i: nat)
      requires i < |sessions| && !sessions[i].freed && !Referenced(Value(), Using(i))
      modifies this
      ensures Value() == Finalize(old(Value()), i)
    {
      CloseSessionState(i);
      sessions := sessions[i := sessions[i].(freed := true)];
    }

    method ReleaseListener()
      requires !freed && !Referenced(Value(), Accepting)
      modifies this
      ensures Value() == FinalizeOwner(old(Value()))
    {
      CloseDescriptor(descriptor);
      descriptor := None;
      active := false;
      freed := true;
    }

    /** One event on the structs is one step of a run. */
    method Dispatch(e: Event)
      modifies this
      ensures Value() == Apply(old(Value()), e)
    {
      match e {
        case Observe => ObserveCreation();
        case Accept(setup) => AcceptSession(setup);
        case Credentials(i) => PeerCredentials(i);
        case Read(i, setup) => UseSession(i, 1, setup);
        case Write(i, setup) => UseSession(i, 2, setup);
        case Close(i) => SessionClose(i);
        case Abort(k, broken) => CancelOperation(k, broken);
        case Executes(k, success) => ExecuteOperation(k, success);
        case Completes(k, ok, making) =>
          if k < |operations| && operations[k].live && (ok ==> operations[k].executed) {
            CompleteOperation(k, ok, making);
          }
        case Cleanup => CloseAndUnlinkOwned();
        case FinalizeSession(i) =>
          if i < |sessions| && !sessions[i].freed && !Referenced(Value(), Using(i)) { ReleaseSession(i); }
        case FinalizeListener =>
          if !freed && !Referenced(Value(), Accepting) { ReleaseListener(); }
      }
    }

    /** An event that finds every descriptor held once or closed once leaves it so. */
    method Handle(e: Event)
      requires Valid()
      modifies this
      ensures Valid() && Value() == Apply(old(Value()), e)
    {
      ghost var before := Value();
      Dispatch(e);
      ApplyKeeps(before, e);
      forall d: nat ensures Balanced(Value(), d) { ApplyBalances(before, e, d); }
    }
  }
}
