/** The active and used tables that admit a claim once: an entry is dropped when its expiry has passed. */
module OnceTables {
  import opened Texts

  datatype Tables = Tables(active: set<Text>, used: map<Text, int>)

  const EMPTY: Tables := Tables({}, map[])
  const MAX_TRACKED: nat := 1_024

  /** The entries that outlive `now`. */
  function Fresh(used: map<Text, int>, now: int): (r: map<Text, int>)
  {
    map id | id in used && used[id] > now :: used[id]
  }

  datatype Verdict = Admitted | Expired | Refused | Used | Active | Full

  function Record(t: Tables, id: Text, expiry: int): Tables
  {
    Tables(t.active + {id}, t.used[id := expiry])
  }

  function Leave(t: Tables, id: Text): Tables { t.(active := t.active - {id}) }

  /** The egress order: expiry, pruning, the caller's options (`ready`), used, active. */
  function EnterHandoff(t: Tables, id: Text, expiry: int, ready: bool, now: int): (r: (Tables, Verdict))
  {
    if expiry <= now then (t, Expired)
    else
      var pruned := t.(used := Fresh(t.used, now));
      if !ready then (pruned, Refused)
      else if id in pruned.used then (pruned, Used)
      else if id in pruned.active then (pruned, Active)
      else (Record(pruned, id, expiry), Admitted)
  }

  /** The coordinator's order: pruning, active, used, room. The expiry is not looked at here. */
  function EnterDispatch(t: Tables, id: Text, expiry: int, now: int): (r: (Tables, Verdict))
  {
    var pruned := t.(used := Fresh(t.used, now));
    if id in pruned.active then (pruned, Active)
    else if id in pruned.used then (pruned, Used)
    else if |pruned.used| >= MAX_TRACKED then (pruned, Full)
    else (Record(pruned, id, expiry), Admitted)
  }

  /** The tables as an object, with pruning as the loop over entries that it is. */
  class Registry {
    var active: set<Text>
    var used: map<Text, int>

    ghost function Value(): (t: Tables)
      reads this
    {
      Tables(active, used)
    }

    constructor ()
      ensures Value() == EMPTY
    {
      active, used := {}, map[];
    }

    method Prune(now: int)
      modifies this`used
      ensures used == Fresh(old(used), now)
    {
      var pending := used.Keys;
      while pending != {}
        invariant pending <= used.Keys
        invariant forall id :: id in old(used) && (old(used)[id] > now || id in pending) ==> id in used
        invariant forall id :: id in used ==>
                  id in old(used) && used[id] == old(used)[id] &&
                  (id in pending || used[id] > now)
        decreases pending
      {
        var id :| id in pending;
        if used[id] <= now { used := used - {id}; }
        pending := pending - {id};
      }
      assert used == Fresh(old(used), now);
    }

    method BeginHandoff(id: Text, expiry: int, ready: bool, now: int) returns (verdict: Verdict)
      modifies this
      ensures (Value(), verdict) == EnterHandoff(old(Value()), id, expiry, ready, now)
    {
      if expiry <= now { return Expired; }
      Prune(now);
      if !ready { return Refused; }
      if id in used { return Used; }
      if id in active { return Active; }
      active := active + {id};
      used := used[id := expiry];
      return Admitted;
    }

    method BeginDispatch(id: Text, expiry: int, now: int) returns (verdict: Verdict)
      modifies this
      ensures (Value(), verdict) == EnterDispatch(old(Value()), id, expiry, now)
    {
      Prune(now);
      if id in active { return Active; }
      if id in used { return Used; }
      if |used| >= MAX_TRACKED { return Full; }
      active := active + {id};
      used := used[id := expiry];
      return Admitted;
    }

    method End(id: Text)
      modifies this`active
      ensures Value() == Leave(old(Value()), id)
    {
      active := active - {id};
    }
  }

  /** One of the events does this. */
  predicate Happens<E>(events: seq<E>, does: E -> bool) { exists m :: 0 <= m < |events| && does(events[m]) }

  lemma {:induction false} HappensFirst<E>(events: seq<E>, does: E -> bool)
    requires events != []
    ensures Happens(events, does) <==> does(events[0]) || Happens(events[1..], does)
  {
    assert forall m :: 1 <= m < |events| ==> events[m] == events[1..][m - 1];
    if Happens(events[1..], does) {
      var m :| 0 <= m < |events[1..]| && does(events[1..][m]);
      assert does(events[m + 1]);
    }
  }

  lemma {:induction false} HappensLast<E>(events: seq<E>, e: E, does: E -> bool)
    ensures Happens(events + [e], does) <==> Happens(events, does) || does(e)
  {
    var all := events + [e];
    assert all[|events|] == e;
    if Happens(events, does) {
      var m :| 0 <= m < |events| && does(events[m]);
      assert all[m] == events[m];
    }
  }

  /** A claim admitted at or before `last` has expired by then or is still recorded. */
  predicate Remembered(t: Tables, id: Text, expiry: int, last: int)
  {
    expiry <= last || (id in t.used && t.used[id] == expiry)
  }

  /** Entering keeps every claim remembered, and admits one again only from its expiry on. */
  lemma {:induction false} DispatchRemembers(
    t: Tables, id: Text, expiry: int, now: int, earlier: Text, earlierExpiry: int, last: int)
    requires Remembered(t, earlier, earlierExpiry, last) && last <= now
    ensures var (next, verdict) := EnterDispatch(t, id, expiry, now);
            && Remembered(next, earlier, earlierExpiry, now)
            && (verdict == Admitted ==>
               Remembered(next, id, expiry, now) &&
               !(id == earlier && expiry == earlierExpiry && now < expiry))
  {
  }
}

/** Handoffs of claimed frames: any number of calls, each waiting for its transport write until it is interrupted. */
module EgressHandoff {
  import opened Texts
  import opened OnceTables

  /** A write handed to the transport. */
  datatype Write = Write(id: Text, expiry: int, at: int)

  /** The tables, the calls still waiting and the writes still pending by call number, and every write so far. */
  datatype State = State(
    tables: Tables, calls: nat, inFlight: map<nat, Text>, pending: map<nat, Text>, writes: seq<Write>)

  const START: State := State(EMPTY, 0, map[], map[], [])

  /**
   * A call arrives with its claim; the write of a call settles, whatever its outcome; or a timeout or
   * an abort ends the call, and its write stays pending.
   */
  datatype Event = Handoff(id: Text, expiry: int, ready: bool, now: int) | Settles(call: nat) | Interrupts(call: nat)

  /** The call is over: its id is free again. */
  function EndCall(s: State, call: nat): State
  {
    if call in s.inFlight then s.(tables := Leave(s.tables, s.inFlight[call]), inFlight := s.inFlight - {call}) else s
  }

  function Apply(s: State, e: Event): (r: State)
  {
    match e
    case Handoff(id, expiry, ready, now) =>
      (match EnterHandoff(s.tables, id, expiry, ready, now)
       case (tables, Admitted) =>
         State(tables, s.calls + 1, s.inFlight[s.calls := id], s.pending[s.calls := id],
           s.writes + [Write(id, expiry, now)])
       case (tables, _) => s.(tables := tables, calls := s.calls + 1))
    case Settles(call) => EndCall(s, call).(pending := s.pending - {call})
    case Interrupts(call) => EndCall(s, call)
  }

  function Run(s: State, events: seq<Event>): (r: State)
    decreases |events|
  {
    if events == [] then s else Run(Apply(s, events[0]), events[1..])
  }

  /** Calls in flight hold distinct ids, and those are the active ones. */
  ghost predicate Exclusive(s: State)
  {
    && (forall call :: call in s.inFlight ==> s.inFlight[call] in s.tables.active)
    && (forall a, b :: a in s.inFlight && b in s.inFlight && s.inFlight[a] == s.inFlight[b] ==> a == b)
    && (forall id :: id in s.tables.active ==> exists call :: call in s.inFlight && s.inFlight[call] == id)
  }

  /** A call in flight has its write pending, and no later write has its id. */
  ghost predicate LatestOfItsId(s: State)
  {
    && (forall call :: call in s.pending ==> call < s.calls)
    && (forall call :: call in s.inFlight ==> call in s.pending && s.pending[call] == s.inFlight[call])
    && (forall a, b :: a in s.inFlight && b in s.pending && s.pending[b] == s.inFlight[a] ==> b <= a)
  }

  lemma {:induction false} HandoffExclusive(s: State, id: Text, expiry: int, ready: bool, now: int)
    requires Exclusive(s) && LatestOfItsId(s)
    ensures Exclusive(Apply(s, Handoff(id, expiry, ready, now)))
  {
    if EnterHandoff(s.tables, id, expiry, ready, now).1 == Admitted {
      var t := Apply(s, Handoff(id, expiry, ready, now));
      assert t.inFlight[s.calls] == id;
      forall x | x in t.tables.active ensures exists call :: call in t.inFlight && t.inFlight[call] == x {
        if x != id {
          var call :| call in s.inFlight && s.inFlight[call] == x;
          assert t.inFlight[call] == x;
        }
      }
    }
  }

  lemma {:induction false} EndExclusive(s: State, ended: nat)
    requires Exclusive(s)
    ensures Exclusive(EndCall(s, ended))
  {
    if ended in s.inFlight {
      var t := EndCall(s, ended);
      forall x | x in t.tables.active ensures exists call :: call in t.inFlight && t.inFlight[call] == x {
        var call :| call in s.inFlight && s.inFlight[call] == x;
        assert call in t.inFlight;
      }
    }
  }

  lemma {:induction false} ApplyLatest(s: State, e: Event)
    requires Exclusive(s) && LatestOfItsId(s)
    ensures LatestOfItsId(Apply(s, e))
  {
  }

  lemma {:induction false} ApplyExclusive(s: State, e: Event)
    requires Exclusive(s) && LatestOfItsId(s)
    ensures Exclusive(Apply(s, e)) && LatestOfItsId(Apply(s, e))
  {
    ApplyLatest(s, e);
    match e {
      case Handoff(id, expiry, ready, now) => HandoffExclusive(s, id, expiry, ready, now);
      case Settles(call) => EndExclusive(s, call);
      case Interrupts(call) => EndExclusive(s, call);
    }
  }

  lemma {:induction false} OneInFlight(s: State, events: seq<Event>)
    requires Exclusive(s) && LatestOfItsId(s)
    ensures Exclusive(Run(s, events)) && LatestOfItsId(Run(s, events))
    decreases |events|
  {
    if events != [] {
      ApplyExclusive(s, events[0]);
      OneInFlight(Apply(s, events[0]), events[1..]);
    }
  }

  /**
   * In every run, two calls in flight at once have different ids, whatever the clock does; and of two
   * pending writes with one id the call of the earlier is over.
   */
  lemma {:induction false} OneHandoffPerId(events: seq<Event>)
    ensures var s := Run(START, events);
            && (forall a, b :: a in s.inFlight && b in s.inFlight && a != b ==> s.inFlight[a] != s.inFlight[b])
            && (forall a, b :: a in s.pending && b in s.pending && a < b && s.pending[a] == s.pending[b] ==>
               a !in s.inFlight)
  {
    OneInFlight(START, events);
  }

  // ----- once -----

  /** The event hands a frame of `id` to the transport. */
  predicate Writes(s: State, e: Event, id: Text)
  {
    e.Handoff? && e.id == id && EnterHandoff(s.tables, e.id, e.expiry, e.ready, e.now).1 == Admitted
  }

  /** None of the events hands over a frame of `id`. */
  predicate Silent(s: State, events: seq<Event>, id: Text)
    decreases |events|
  {
    events == [] || (!Writes(s, events[0], id) && Silent(Apply(s, events[0]), events[1..], id))
  }

  /** A handoff that has not expired prunes every entry whose expiry its sample has reached. */
  predicate Prunes(e: Event, expiry: int) { e.Handoff? && expiry <= e.now < e.expiry }

  predicate SomePrunes(events: seq<Event>, expiry: int) { Happens(events, (e: Event) => Prunes(e, expiry)) }

  /** The claim's entry stays until it is pruned. */
  lemma {:induction false} UsedUntilPruned(s: State, events: seq<Event>, id: Text, expiry: int)
    requires Silent(s, events, id) && (id in s.tables.used ==> s.tables.used[id] == expiry)
    ensures var t := Run(s, events);
            && (id in t.tables.used <==> id in s.tables.used && !SomePrunes(events, expiry))
            && (id in t.tables.used ==> t.tables.used[id] == expiry)
    decreases |events|
  {
    if events != [] {
      UsedUntilPruned(Apply(s, events[0]), events[1..], id, expiry);
      HappensFirst(events, (e: Event) => Prunes(e, expiry));
    }
  }

  /**
   * Once a claim has been handed over, and as long as no other frame of its id is, a handoff of that
   * id is admitted exactly if its caller is ready, it has not expired, the id is not in flight, and
   * some handoff since, itself included, sampled at or after the claim's expiry and before its own.
   * For the same claim the handoff itself never is that one: the clock must have gone back.
   */
  lemma {:induction false} AdmittedAgainExactly(s: State, claim: Event, between: seq<Event>, again: Event)
    requires claim.Handoff? && Writes(s, claim, claim.id) && Silent(Apply(s, claim), between, claim.id)
    requires again.Handoff? && again.id == claim.id
    ensures var t := Run(Apply(s, claim), between);
            Writes(t, again, claim.id) <==>
            again.ready && again.now < again.expiry && claim.id !in t.tables.active &&
              SomePrunes(between + [again], claim.expiry)
    ensures again.expiry == claim.expiry ==> (SomePrunes(between + [again], claim.expiry) <==>
            SomePrunes(between, claim.expiry))
  {
    UsedUntilPruned(Apply(s, claim), between, claim.id, claim.expiry);
    HappensLast(between, again, (e: Event) => Prunes(e, claim.expiry));
  }

  lemma {:induction false} InactiveWhileSilent(s: State, events: seq<Event>, id: Text)
    requires Silent(s, events, id) && id !in s.tables.active
    ensures id !in Run(s, events).tables.active
    decreases |events|
  {
    if events != [] { InactiveWhileSilent(Apply(s, events[0]), events[1..], id); }
  }

  /** An id that has not been handed over yet is admitted exactly if its caller is ready and it has not expired. */
  lemma {:induction false} FirstAdmittedExactly(events: seq<Event>, first: Event)
    requires first.Handoff? && Silent(START, events, first.id)
    ensures Writes(Run(START, events), first, first.id) <==> first.ready && first.now < first.expiry
  {
    UsedUntilPruned(START, events, first.id, 0);
    InactiveWhileSilent(START, events, first.id);
  }

  // ----- two pending writes -----

  /** The call owns its id: the id is active exactly while the call is in flight. */
  ghost predicate Owns(s: State, call: nat, id: Text)
  {
    && Exclusive(s) && LatestOfItsId(s)
    && (call in s.pending ==> s.pending[call] == id)
    && (call in s.inFlight <==> id in s.tables.active)
    && (call in s.inFlight ==> s.inFlight[call] == id)
    && call < s.calls
  }

  lemma {:induction false} OwnsStep(s: State, e: Event, id: Text, call: nat)
    requires Owns(s, call, id) && !Writes(s, e, id)
    ensures var t := Apply(s, e);
            && Owns(t, call, id)
            && (call in t.pending <==> call in s.pending && e != Settles(call))
            && (call in t.inFlight <==> call in s.inFlight && e != Settles(call) && e != Interrupts(call))
  {
    ApplyExclusive(s, e);
  }

  /** What becomes of a call and its write while no other frame of its id is handed over. */
  lemma {:induction false} CallWhileSilent(s: State, events: seq<Event>, id: Text, call: nat)
    requires Owns(s, call, id) && Silent(s, events, id)
    ensures var t := Run(s, events);
            && Owns(t, call, id)
            && (call in t.pending <==> call in s.pending && Settles(call) !in events)
            && (call in t.inFlight <==> call in s.inFlight && Settles(call) !in events && Interrupts(call) !in events)
    decreases |events|
  {
    if events != [] {
      OwnsStep(s, events[0], id, call);
      CallWhileSilent(Apply(s, events[0]), events[1..], id, call);
      assert events == [events[0]] + events[1..];
    }
  }

  /**
   * When a claim has been handed over and no other frame of its id since, the next handoff of that id
   * leaves two writes of it pending exactly if the first call was interrupted, its write has not
   * settled, and the handoff is admitted: ready, not expired, and the claim's entry pruned.
   */
  lemma {:induction false} TwoPendingExactly(events: seq<Event>, claim: Event, between: seq<Event>, again: Event)
    requires var s := Run(START, events);
             claim.Handoff? && Writes(s, claim, claim.id) && Silent(Apply(s, claim), between, claim.id)
    requires again.Handoff? && again.id == claim.id
    ensures var s := Run(START, events);
            var t := Run(Apply(s, claim), between);
            var u := Apply(t, again);
            s.calls in u.pending && t.calls in u.pending && u.pending[s.calls] == u.pending[t.calls] <==>
            && Interrupts(s.calls) in between && Settles(s.calls) !in between
            && again.ready && again.now < again.expiry && SomePrunes(between + [again], claim.expiry)
  {
    var s := Run(START, events);
    OneInFlight(START, events);
    ApplyExclusive(s, claim);
    CallWhileSilent(Apply(s, claim), between, claim.id, s.calls);
    AdmittedAgainExactly(s, claim, between, again);
    CallsRise(Apply(s, claim), between);
  }

  lemma {:induction false} CallsRise(s: State, events: seq<Event>)
    ensures s.calls <= Run(s, events).calls
    decreases |events|
  {
    if events != [] { CallsRise(Apply(s, events[0]), events[1..]); }
  }

  // ----- once, on a clock that never goes back -----

  /** The clock never goes back over these events. */
  predicate Steady(last: int, events: seq<Event>)
    decreases |events|
  {
    events == [] || (last <= Latest(last, events[0]) && Steady(Latest(last, events[0]), events[1..]))
  }

  function Latest(last: int, e: Event): int { if e.Handoff? then e.now else last }

  /** No sample of these events lies after `last`. */
  predicate SampledBy(events: seq<Event>, last: int)
  {
    forall m :: 0 <= m < |events| && events[m].Handoff? ==> events[m].now <= last
  }

  function Written(s: State, e: Event): (writes: seq<Write>)
  {
    if e.Handoff? && Writes(s, e, e.id) then [Write(e.id, e.expiry, e.now)] else []
  }

  function NewWrites(s: State, events: seq<Event>): (writes: seq<Write>)
    decreases |events|
  {
    if events == [] then [] else Written(s, events[0]) + NewWrites(Apply(s, events[0]), events[1..])
  }

  lemma {:induction false} RunWrites(s: State, events: seq<Event>)
    ensures Run(s, events).writes == s.writes + NewWrites(s, events)
    decreases |events|
  {
    if events != [] {
      var t := Apply(s, events[0]);
      RunWrites(t, events[1..]);
      assert t.writes == s.writes + Written(s, events[0]);
      assert s.writes + Written(s, events[0]) + NewWrites(t, events[1..]) ==
        s.writes + (Written(s, events[0]) + NewWrites(t, events[1..]));
    }
  }

  predicate Without(writes: seq<Write>, id: Text, expiry: int)
  {
    forall i :: 0 <= i < |writes| ==> writes[i].id != id || writes[i].expiry != expiry
  }

  predicate Once(writes: seq<Write>)
  {
    forall i, j :: 0 <= i < j < |writes| ==> writes[i].id != writes[j].id || writes[i].expiry != writes[j].expiry
  }

  /** From its expiry on a claim is not handed over. */
  lemma {:induction false} NothingAfterExpiry(s: State, events: seq<Event>, last: int, id: Text, expiry: int)
    requires Steady(last, events) && expiry <= last
    ensures Without(NewWrites(s, events), id, expiry)
    decreases |events|
  {
    if events != [] { NothingAfterExpiry(Apply(s, events[0]), events[1..], Latest(last, events[0]), id, expiry); }
  }

  lemma {:induction false} RunLast(s: State, events: seq<Event>, e: Event)
    ensures Run(s, events + [e]) == Apply(Run(s, events), e)
    decreases |events|
  {
    if events == [] {
      assert [e][1..] == [];
    } else {
      RunLast(Apply(s, events[0]), events[1..], e);
      assert (events + [e])[1..] == events[1..] + [e];
    }
  }

  lemma {:induction false} SilentLast(s: State, events: seq<Event>, e: Event, id: Text)
    requires Silent(s, events, id) && !Writes(Run(s, events), e, id)
    ensures Silent(s, events + [e], id)
    decreases |events|
  {
    if events == [] {
      assert [e][1..] == [];
    } else {
      SilentLast(Apply(s, events[0]), events[1..], e, id);
      assert (events + [e])[1..] == events[1..] + [e];
    }
  }

  /** A claim that has been handed over is not handed over again: the next frame of its id is past its expiry. */
  lemma {:induction false} NeverAgain(s: State, claim: Event, between: seq<Event>, rest: seq<Event>, last: int)
    requires claim.Handoff? && Writes(s, claim, claim.id) && Silent(Apply(s, claim), between, claim.id)
    requires SampledBy(between, last) && Steady(last, rest)
    ensures Without(NewWrites(Run(Apply(s, claim), between), rest), claim.id, claim.expiry)
    decreases |rest|
  {
    if rest != [] {
      var t := Run(Apply(s, claim), between);
      var e := rest[0];
      var now := Latest(last, e);
      if Writes(t, e, claim.id) {
        AdmittedAgainExactly(s, claim, between, e);
        HappensLast(between, e, (x: Event) => Prunes(x, claim.expiry));
        NothingAfterExpiry(Apply(t, e), rest[1..], now, claim.id, claim.expiry);
      } else {
        RunLast(Apply(s, claim), between, e);
        SilentLast(Apply(s, claim), between, e, claim.id);
        NeverAgain(s, claim, between + [e], rest[1..], now);
      }
    }
  }

  lemma {:induction false} OnceFrom(s: State, events: seq<Event>, last: int)
    requires Steady(last, events)
    ensures Once(NewWrites(s, events))
    decreases |events|
  {
    if events != [] {
      var e := events[0];
      OnceFrom(Apply(s, e), events[1..], Latest(last, e));
      if e.Handoff? && Writes(s, e, e.id) { NeverAgain(s, e, [], events[1..], e.now); }
    }
  }

  /**
   * On a clock that never goes back, no claim, as an id with its expiry, is handed to the transport
   * twice over any run, although used entries are pruned.
   */
  lemma {:induction false} EveryClaimOnce(events: seq<Event>, started: int)
    requires Steady(started, events)
    ensures Once(Run(START, events).writes)
  {
    OnceFrom(START, events, started);
    RunWrites(START, events);
  }

  lemma {:induction false} RunOne(s: State, events: seq<Event>, i: nat)
    requires i < |events|
    ensures Run(s, events[i..]) == Run(Apply(s, events[i]), events[i + 1..])
  {
    assert events[i..][1..] == events[i + 1..];
  }

  /** One step back past a pruning is enough to write a claim twice. */
  lemma {:induction false} BackwardClockWritesTwice(id: Text, other: Text)
    requires id != other
    ensures var events := [Handoff(id, 10, true, 5), Settles(0), Handoff(other, 20, true, 10),
            Handoff(id, 10, true, 9)];
            Run(START, events).writes == [Write(id, 10, 5), Write(other, 20, 10), Write(id, 10, 9)]
  {
    var events := [Handoff(id, 10, true, 5), Settles(0), Handoff(other, 20, true, 10), Handoff(id, 10, true, 9)];
    var s1 := Apply(START, events[0]);
    var s2 := Apply(s1, events[1]);
    var s3 := Apply(s2, events[2]);
    var s4 := Apply(s3, events[3]);
    assert s2.tables == Tables({}, map[id := 10]);
    assert Fresh(s2.tables.used, 10) == map[];
    assert s3.tables == Tables({other}, map[other := 20]);
    assert id !in Fresh(s3.tables.used, 9);
    assert s4.writes == [Write(id, 10, 5), Write(other, 20, 10), Write(id, 10, 9)];
    RunOne(START, events, 0);
    RunOne(s1, events, 1);
    RunOne(s2, events, 2);
    RunOne(s3, events, 3);
    assert events[0..] == events && events[4..] == [];
  }

  /**
   * A concrete run on a steady clock: the first call times out, its claim expires, and a new claim's
   * write joins the pending one.
   */
  lemma {:induction false} TimeoutLeavesTwoPending(id: Text)
    ensures Run(START, [Handoff(id, 10, true, 5), Interrupts(0), Handoff(id, 30, true, 12)]).pending ==
            map[0 := id, 1 := id]
  {
    var events := [Handoff(id, 10, true, 5), Interrupts(0), Handoff(id, 30, true, 12)];
    var s1 := Apply(START, events[0]);
    var s2 := Apply(s1, events[1]);
    assert s2.tables == Tables({}, map[id := 10]);
    assert Fresh(s2.tables.used, 12) == map[];
    RunOne(START, events, 0);
    RunOne(s1, events, 1);
    RunOne(s2, events, 2);
    assert events[0..] == events && events[3..] == [];
  }
}
