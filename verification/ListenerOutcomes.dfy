/** When the native listener's calls succeed: sessions made, operations queued, descriptors closed. */
module ListenerOutcomes {
  import opened Outcomes
  import opened NativeListener

  // ----- operations -----

  predicate Idle(l: Listener) { !l.operationActive && !l.sessionActive }

  /** The call may start an operation: an accept once, a read in phase 1 and a write in phase 2 of an idle session. */
  predicate MayQueue(s: State, e: Event)
  {
    match e
    case Accept(setup) =>
      setup == Queued && !s.listener.freed && s.listener.active && s.listener.creationObserved &&
      !s.listener.acceptConsumed && Idle(s.listener)
    case Read(i, setup) =>
      setup == Queued && i < |s.sessions| && !s.sessions[i].freed && s.sessions[i].phase == 1 &&
        !s.sessions[i].operationActive
    case Write(i, setup) =>
      setup == Queued && i < |s.sessions| && !s.sessions[i].freed && s.sessions[i].phase == 2 &&
        !s.sessions[i].operationActive
    case _ => false
  }

  function OwnerOf(e: Event): Kind
  {
    match e
    case Read(i, _) => Using(i)
    case Write(i, _) => Using(i)
    case _ => Accepting
  }

  lemma {:induction false} OthersQueueNone(s: State, e: Event)
    requires !e.Accept? && !e.Read? && !e.Write?
    ensures |Apply(s, e).operations| == |s.operations|
  {
    match e {
      case Completes(k, ok, making) => CompletionParts(s, k, ok, making);
      case _ =>
    }
  }

  lemma {:induction false} UseQueues(s: State, i: nat, phase: nat, setup: Setup)
    ensures if setup == Queued && Callable(s, i, phase)
            then BeginUse(s, i, phase, setup).operations == s.operations +
                   [Operation(Using(i), true, Some(s.issued), Some(s.issued + 1), None, false, false, false)]
            else BeginUse(s, i, phase, setup).operations == s.operations
  {
  }

  /** What a completion leaves alone, up to the session it may make. */
  lemma {:induction false} CompletionParts(s: State, k: nat, ok: bool, making: Making)
    ensures var t := Complete(s, k, ok, making);
            && |t.operations| == |s.operations| && t.listener.descriptor == s.listener.descriptor
            && |s.sessions| <= |t.sessions|
            && forall i :: 0 <= i < |s.sessions| ==> t.sessions[i].descriptor == s.sessions[i].descriptor
  {
    if k < |s.operations| && s.operations[k].live && (ok ==> s.operations[k].executed) {
      var o := s.operations[k];
      UnblockParts(Ended(s, k), o.kind);
      MakingParts(Unblock(Ended(s, k), o.kind), o.accepted, making);
    }
  }

  lemma {:induction false} UnblockParts(s: State, kind: Kind)
    ensures var t := Unblock(s, kind);
            && t.closed == s.closed && t.operations == s.operations &&
               t.listener == s.listener.(operationActive := t.listener.operationActive)
            && (kind == Accepting ==> t.sessions == s.sessions && !t.listener.operationActive)
            && |t.sessions| == |s.sessions|
            && forall i :: 0 <= i < |s.sessions| ==> t.sessions[i].descriptor == s.sessions[i].descriptor
  {
  }

  lemma {:induction false} MakingParts(s: State, d: Descriptor, making: Making)
    ensures var t := MakeSession(s, d, making);
            && t.operations == s.operations && t.listener == s.listener.(sessionActive := t.listener.sessionActive)
            && |s.sessions| <= |t.sessions| && t.sessions[..|s.sessions|] == s.sessions
  {
  }

  /** An operation is queued exactly when the call may start one, and then it is live with two fresh pipe ends. */
  lemma {:induction false} QueuedExactly(s: State, e: Event)
    ensures var t := Apply(s, e);
            if MayQueue(s, e)
            then t.operations == s.operations +
                   [Operation(OwnerOf(e), true, Some(s.issued), Some(s.issued + 1), None, false, false, false)]
            else |t.operations| == |s.operations|
  {
    match e {
      case Read(i, setup) => UseQueues(s, i, 1, setup);
      case Write(i, setup) => UseQueues(s, i, 2, setup);
      case Accept(_) =>
      case _ => OthersQueueNone(s, e);
    }
  }

  /** Starting makes the owner busy, and moves an accept or a session on. */
  lemma {:induction false} QueuingOccupies(s: State, e: Event)
    requires MayQueue(s, e)
    ensures e.Accept? ==> Apply(s, e).listener == s.listener.(acceptConsumed := true, operationActive := true)
    ensures e.Read? ==>
            Apply(s, e).sessions == s.sessions[e.session := s.sessions[e.session].(phase := 2, operationActive := true)]
    ensures e.Write? ==>
            Apply(s, e).sessions == s.sessions[e.session := s.sessions[e.session].(phase := 3, operationActive := true)]
  {
  }

  // ----- sessions -----

  /**
   * The completion of a live accept that has executed without failure and was not cancelled, and can
   * make its session.
   */
  predicate MakesSession(s: State, e: Event)
  {
    && e.Completes? && e.ok && e.making == Made && e.operation < |s.operations|
    && var o := s.operations[e.operation];
    o.kind == Accepting && o.live && o.executed && !o.failed && !o.cancelled
  }

  lemma {:induction false} OthersMakeNone(s: State, e: Event)
    requires !e.Completes?
    ensures |Apply(s, e).sessions| == |s.sessions|
  {
  }

  /** A session is made exactly then; it takes over what was accepted, in phase 0, and occupies the listener. */
  lemma {:induction false} MadeExactly(s: State, e: Event)
    ensures var t := Apply(s, e);
            if MakesSession(s, e)
            then t.sessions == s.sessions + [Session(s.operations[e.operation].accepted, 0, false, true, false)] &&
                 t.listener == s.listener.(operationActive := false, sessionActive := true)
            else |t.sessions| == |s.sessions|
  {
    if !e.Completes? {
      OthersMakeNone(s, e);
    } else if e.operation < |s.operations| && s.operations[e.operation].live {
      UnblockParts(Ended(s, e.operation), s.operations[e.operation].kind);
    }
  }

  // ----- closing -----

  /** A session is closed by its own call when nothing runs on it, or by its finalizer when nothing refers to it. */
  predicate ClosesSession(s: State, e: Event, i: nat)
    requires i < |s.sessions|
  {
    && !s.sessions[i].freed
    && ((e == Close(i) && !s.sessions[i].operationActive && s.sessions[i].descriptor.Some?) ||
        (e == FinalizeSession(i) && forall k :: 0 <= k < |s.operations| && s.operations[k].live ==>
          s.operations[k].kind != Using(i)))
  }

  lemma {:induction false} CompletionLeavesSession(s: State, e: Event, i: nat)
    requires e.Completes? && i < |s.sessions|
    ensures i < |Apply(s, e).sessions| && Apply(s, e).sessions[i].descriptor == s.sessions[i].descriptor
  {
    CompletionParts(s, e.operation, e.ok, e.making);
  }

  lemma {:induction false} UseLeavesSession(s: State, j: nat, phase: nat, setup: Setup, i: nat)
    requires i < |s.sessions|
    ensures i < |BeginUse(s, j, phase, setup).sessions|
    ensures BeginUse(s, j, phase, setup).sessions[i].descriptor == s.sessions[i].descriptor
  {
  }

  lemma {:induction false} OthersLeaveSession(s: State, e: Event, i: nat)
    requires i < |s.sessions| && !e.Close? && !e.FinalizeSession?
    ensures i < |Apply(s, e).sessions| && Apply(s, e).sessions[i].descriptor == s.sessions[i].descriptor
  {
    match e {
      case Completes(_, _, _) => CompletionLeavesSession(s, e, i);
      case Read(j, setup) => UseLeavesSession(s, j, 1, setup, i);
      case Write(j, setup) => UseLeavesSession(s, j, 2, setup, i);
      case _ =>
    }
  }

  lemma {:induction false} UnreferencedExactly(s: State, i: nat)
    ensures Referenced(s, Using(i)) <==>
            exists k :: 0 <= k < |s.operations| && s.operations[k].live && s.operations[k].kind == Using(i)
    ensures Referenced(s, Accepting) <==>
            (exists k :: 0 <= k < |s.operations| && s.operations[k].live && s.operations[k].kind == Accepting) ||
            (exists j :: 0 <= j < |s.sessions| && s.sessions[j].linked)
  {
  }

  /** A session's descriptor is closed exactly then, once, and the session lets go of the listener. */
  lemma {:induction false} ClosedExactly(s: State, e: Event, i: nat)
    requires i < |s.sessions| && s.sessions[i].descriptor.Some?
    ensures var t := Apply(s, e);
            && i < |t.sessions| && (t.sessions[i].descriptor == None <==> ClosesSession(s, e, i))
            && (t.sessions[i].descriptor.Some? ==> t.sessions[i].descriptor == s.sessions[i].descriptor)
    ensures ClosesSession(s, e, i) ==>
            var t := Apply(s, e);
            && t.closed == s.closed + One(s.sessions[i].descriptor) && t.sessions[i].phase == 3
            && !t.sessions[i].linked && (s.sessions[i].linked ==> !t.listener.sessionActive)
  {
    if e.Close? {
      assert Apply(s, e) == s || Apply(s, e) == CloseSession(s, e.session);
    } else if e.FinalizeSession? {
      UnreferencedExactly(s, i);
      assert Apply(s, e) == Finalize(s, e.session);
    } else {
      OthersLeaveSession(s, e, i);
    }
  }

  /** The listener is closed by a cleanup that finds it idle, or by its finalizer when nothing refers to it. */
  predicate ClosesListener(s: State, e: Event)
  {
    && !s.listener.freed
    && ((e == Cleanup && s.listener.active && Idle(s.listener)) ||
        (e == FinalizeListener &&
           (forall k :: 0 <= k < |s.operations| && s.operations[k].live ==> s.operations[k].kind != Accepting) &&
           (forall i :: 0 <= i < |s.sessions| ==> !s.sessions[i].linked)))
  }

  lemma {:induction false} OthersLeaveListener(s: State, e: Event)
    requires e != Cleanup && e != FinalizeListener
    ensures Apply(s, e).listener.descriptor == s.listener.descriptor
  {
    match e {
      case Completes(k, ok, making) => CompletionParts(s, k, ok, making);
      case Read(i, setup) => UseLeavesListener(s, i, 1, setup);
      case Write(i, setup) => UseLeavesListener(s, i, 2, setup);
      case _ =>
    }
  }

  lemma {:induction false} UseLeavesListener(s: State, i: nat, phase: nat, setup: Setup)
    ensures BeginUse(s, i, phase, setup).listener == s.listener
  {
  }

  /** The listener's descriptor is closed exactly then, once. */
  lemma {:induction false} ListenerClosedExactly(s: State, e: Event)
    requires s.listener.descriptor.Some?
    ensures var t := Apply(s, e);
            && (t.listener.descriptor == None <==> ClosesListener(s, e))
            && (t.listener.descriptor.Some? ==> t.listener.descriptor == s.listener.descriptor)
    ensures ClosesListener(s, e) ==>
            Apply(s, e).closed == s.closed + One(s.listener.descriptor) && !Apply(s, e).listener.active
  {
    if e == Cleanup {
      assert Apply(s, e) == CleanUp(s);
    } else if e == FinalizeListener {
      UnreferencedExactly(s, 0);
      assert Apply(s, e) == FinalizeOwner(s);
    } else {
      OthersLeaveListener(s, e);
    }
  }

  // ----- an operation's end -----

  /** A worker that finishes is noted once; an accept that succeeds holds one fresh descriptor. */
  lemma {:induction false} ExecutedExactly(s: State, k: nat, success: bool)
    requires k < |s.operations| && s.operations[k].live && !s.operations[k].executed
    ensures var o, t := s.operations[k], Apply(s, Executes(k, success));
            && k < |t.operations| && t.operations[k].executed && (t.operations[k].failed <==> !success)
            && (if success && o.kind == Accepting
                then t.operations[k].accepted == Some(s.issued) && t.issued == s.issued + 1
                else t.operations[k].accepted == o.accepted && t.issued == s.issued)
  {
  }

  /**
   * A completion ends the operation: both pipe ends are closed, and what it accepted is closed unless
   * the session that is made has taken it over.
   */
  lemma {:induction false} EndedExactly(s: State, k: nat, ok: bool, making: Making)
    requires k < |s.operations| && s.operations[k].live && (ok ==> s.operations[k].executed)
    ensures var o, t := s.operations[k], Apply(s, Completes(k, ok, making));
            && k < |t.operations| && !t.operations[k].live
            && t.operations[k].wake == t.operations[k].marker == t.operations[k].accepted == None
            && t.closed == s.closed + One(o.wake) + One(o.marker) +
                 (if MakesSession(s, Completes(k, ok, making)) then multiset{} else One(o.accepted))
  {
    var o := s.operations[k];
    var ended := Ended(s, k);
    var u := Unblock(ended, o.kind);
    UnblockParts(ended, o.kind);
    MakingParts(u, o.accepted, making);
    assert u.closed == s.closed + One(o.wake) + One(o.marker);
    assert u.operations[k] == o.(live := false, wake := None, marker := None, accepted := None);
    assert s.closed + One(o.wake) + One(o.marker) + multiset{} == s.closed + One(o.wake) + One(o.marker);
  }
}
