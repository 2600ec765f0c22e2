/**
 Waking blocked clients (lib/commands/block.go, lib/shard/shard.go waiter registry,
 lib/commands/list.go): BLPOP and its kin on one list key.  A client that finds the list
 empty registers in the same shard task and parks on its channel; a push, and a blocking
 pop that leaves elements, signal the first registered waiter; a signalled client
 deregisters and tries again.  The channel holds one pending signal.
 */
module Wake {

  /** Where a blocking client is. `Leaving` has timed out and not yet deregistered. */
  datatype Phase = Trying | Parked | Woken | Leaving | Done

  /** The list's length, the registry in FIFO order, the channels holding a signal, and
      the clients. */
  datatype System = System(len: nat, waiters: seq<nat>, signalled: set<nat>, clients: map<nat, Phase>)

  datatype Event =
    | Arrive(c: nat)               // a client issues a blocking pop
    | Try(c: nat, want: nat)       // its shard task: pop, or register
    | Receive(c: nat)              // it takes the signal from its channel
    | Deregister(c: nat)           // and leaves the registry, to try again
    | Push(n: nat)                 // LPUSH, RPUSH, the push half of LMOVE
    | PopWake(n: nat)              // a blocking pop inside EXEC, or LMOVE's pop half: wakes
    | Rotate                       // LMOVE of the list onto itself: wakes
    | Pop(n: nat)                  // LPOP, RPOP, LTRIM, DEL, expiry: no wake
    | TimeOut(c: nat)              // the timer fires while the client is parked
    | Leave(c: nat)                // and it deregisters, replying null

  const EMPTY := System(0, [], {}, map[])

  function Wake(s: System): System {
    if s.waiters == [] then s else s.(signalled := s.signalled + {s.waiters[0]})
  }

  function Without(ws: seq<nat>, c: nat): seq<nat> {
    if ws == [] then []
    else if ws[0] == c then Without(ws[1..], c)
    else [ws[0]] + Without(ws[1..], c)
  }

  predicate In(s: System, c: nat, p: Phase) {
    c in s.clients && s.clients[c] == p
  }

  predicate Enabled(s: System, e: Event) {
    match e
    case Arrive(c) => c !in s.clients
    case Try(c, want) => In(s, c, Trying) && want > 0
    case Receive(c) => In(s, c, Parked) && c in s.signalled
    case Deregister(c) => In(s, c, Woken)
    case Push(n) => n > 0
    case PopWake(n) => 0 < n <= s.len
    case Rotate => s.len > 0
    case Pop(n) => 0 < n <= s.len
    case TimeOut(c) => In(s, c, Parked)
    case Leave(c) => In(s, c, Leaving)
  }

  function Move(s: System, c: nat, p: Phase): System {
    s.(clients := s.clients[c := p])
  }

  /** Take n elements and wake the next waiter if some remain. */
  function Take(s: System, n: nat): System
    requires n <= s.len
  {
    var s1 := s.(len := s.len - n);
    if s1.len == 0 then s1 else Wake(s1)
  }

  function Next(s: System, e: Event): System
    requires Enabled(s, e)
  {
    match e
    case Arrive(c) => Move(s, c, Trying)
    case Try(c, want) =>
      if s.len > 0 then Move(Take(s, if want < s.len then want else s.len), c, Done)
      else Move(s.(waiters := s.waiters + [c]), c, Parked)
    case Receive(c) => Move(s.(signalled := s.signalled - {c}), c, Woken)
    case Deregister(c) => Move(s.(waiters := Without(s.waiters, c)), c, Trying)
    case Push(n) => Wake(s.(len := s.len + n))
    case PopWake(n) => Take(s, n)
    case Rotate => Wake(s)
    case Pop(n) => s.(len := s.len - n)
    case TimeOut(c) => Move(s, c, Leaving)
    case Leave(c) => Move(s.(waiters := Without(s.waiters, c)), c, Done)
  }

  // -------------------------------------------------------------------- invariant

  predicate Registered(p: Phase) {
    p == Parked || p == Woken || p == Leaving
  }

  /** The registry holds exactly the clients that are registered. */
  ghost predicate RegistryExact(s: System) {
    && (forall c :: c in s.waiters <==> c in s.clients && Registered(s.clients[c]))
  }

  /** The client will try the list again: it is trying, it has taken its signal, or it
      waits with a signal in its channel.  A client that timed out never tries again. */
  predicate Stirred(s: System, c: nat) {
    In(s, c, Trying) || In(s, c, Woken) || (In(s, c, Parked) && c in s.signalled)
  }

  ghost predicate SomeStirred(s: System) {
    exists c :: Stirred(s, c)
  }

  ghost predicate SomeParked(s: System) {
    exists c :: In(s, c, Parked)
  }

  ghost predicate OtherStirred(s: System, c: nat) {
    exists d :: d != c && Stirred(s, d)
  }

  ghost predicate OtherParked(s: System, c: nat) {
    exists d :: d != c && In(s, d, Parked)
  }

  /** No wake-up is lost: elements and a parked client imply somebody who will retry. */
  ghost predicate Healthy(s: System) {
    s.len > 0 && SomeParked(s) ==> SomeStirred(s)
  }

  lemma {:induction false} WithoutMembers(ws: seq<nat>, c: nat)
    ensures forall d :: d in Without(ws, c) <==> d in ws && d != c
  {
    if ws != [] {
      WithoutMembers(ws[1..], c);
      assert ws == [ws[0]] + ws[1..];
    }
  }

  // ------------------------------------------------------------ the exact condition

  /** The waiter a signal would go to has not timed out. */
  predicate FirstListens(s: System) {
    s.waiters != [] && !In(s, s.waiters[0], Leaving)
  }

  /** The step loses no wake-up.  Two things can: a client timing out with the only signal
      there is, and a signal sent to a client that has timed out. */
  ghost predicate Passes(s: System, e: Event) {
    match e
    case TimeOut(c) => s.len > 0 && OtherParked(s, c) ==> OtherStirred(s, c)
    case Push(_) => SomeParked(s) ==> SomeStirred(s) || FirstListens(s)
    case Try(c, want) => want < s.len && SomeParked(s) ==> OtherStirred(s, c) || FirstListens(s)
    case _ => true
  }

  lemma StepKeepsRegistry(s: System, e: Event)
    requires RegistryExact(s) && Enabled(s, e)
    ensures RegistryExact(Next(s, e))
  {
    if e.Deregister? || e.Leave? { WithoutMembers(s.waiters, e.c); }
  }

  /** What a signal does: it stirs the first waiter, unless that one has timed out. */
  lemma WakeStirs(s: System, c: nat)
    requires RegistryExact(s)
    ensures Stirred(Wake(s), c) <==> Stirred(s, c) || (s.waiters != [] && c == s.waiters[0] && FirstListens(s))
  {
    if s.waiters != [] {
      var w := s.waiters[0];
      assert w in s.waiters && Registered(s.clients[w]);
    }
  }

  lemma ParkedIsWaiting(s: System)
    requires RegistryExact(s) && SomeParked(s)
    ensures s.waiters != []
  {
    var c :| In(s, c, Parked);
    assert c in s.waiters;
  }

  lemma PushIsExact(s: System, n: nat)
    requires RegistryExact(s) && n > 0
    ensures Healthy(Next(s, Push(n))) <==> Passes(s, Push(n))
  {
    var s1 := s.(len := s.len + n);
    var s' := Next(s, Push(n));
    forall c ensures Stirred(s', c) <==> Stirred(s, c) || (s.waiters != [] && c == s.waiters[0] && FirstListens(s)) {
      WakeStirs(s1, c);
    }
    assert SomeParked(s') <==> SomeParked(s) by { assert forall c :: In(s', c, Parked) <==> In(s, c, Parked); }
    if SomeParked(s) {
      ParkedIsWaiting(s);
      if SomeStirred(s) { var c :| Stirred(s, c); assert Stirred(s', c); }
      if FirstListens(s) { assert Stirred(s', s.waiters[0]); }
    }
  }

  lemma TryIsExact(s: System, c: nat, want: nat)
    requires RegistryExact(s) && Enabled(s, Try(c, want)) && s.len > 0
    ensures Healthy(Next(s, Try(c, want))) <==> Passes(s, Try(c, want))
  {
    var n := if want < s.len then want else s.len;
    var s1 := s.(len := s.len - n);
    var s' := Next(s, Try(c, want));
    assert c !in s.waiters;
    assert forall d :: In(s', d, Parked) <==> In(s, d, Parked);
    if want < s.len {
      forall d ensures Stirred(s', d) <==>
          d != c && (Stirred(s, d) || (s.waiters != [] && d == s.waiters[0] && FirstListens(s))) {
        WakeStirs(s1, d);
        assert d != c ==> (Stirred(s', d) <==> Stirred(Wake(s1), d));
      }
      if SomeParked(s) {
        ParkedIsWaiting(s);
        assert s.waiters[0] in s.waiters;
        if OtherStirred(s, c) { var d :| d != c && Stirred(s, d); assert Stirred(s', d); }
        if FirstListens(s) { assert Stirred(s', s.waiters[0]); }
      }
    }
  }

  lemma TimeOutIsExact(s: System, c: nat)
    requires Enabled(s, TimeOut(c))
    ensures Healthy(Next(s, TimeOut(c))) <==> Passes(s, TimeOut(c))
  {
    var s' := Next(s, TimeOut(c));
    assert forall d :: In(s', d, Parked) <==> d != c && In(s, d, Parked);
    assert forall d :: Stirred(s', d) <==> d != c && Stirred(s, d);
  }

  lemma OthersPass(s: System, e: Event)
    requires RegistryExact(s) && Healthy(s) && Enabled(s, e)
    requires !e.Push? && !e.Try? && !e.TimeOut?
    ensures Healthy(Next(s, e))
  {
    var s' := Next(s, e);
    if s'.len > 0 && SomeParked(s') {
      if e.Arrive? || e.Receive? || e.Deregister? {
        assert Stirred(s', e.c);
      } else {
        var d :| In(s', d, Parked);
        assert In(s, d, Parked);
        var w :| Stirred(s, w);
        assert Stirred(s', w);
      }
    }
  }

  /** The exact condition, one step: from a healthy state a step leads to a healthy state
      if and only if it passes. */
  lemma StepIsExact(s: System, e: Event)
    requires RegistryExact(s) && Healthy(s) && Enabled(s, e)
    ensures RegistryExact(Next(s, e))
    ensures Healthy(Next(s, e)) <==> Passes(s, e)
  {
    hide Healthy, SomeStirred, SomeParked, OtherStirred, OtherParked, FirstListens;
    StepKeepsRegistry(s, e);
    match e
    case TimeOut(c) => TimeOutIsExact(s, c);
    case Push(n) => PushIsExact(s, n);
    case Try(c, want) => if s.len > 0 { TryIsExact(s, c, want); } else { ParkingIsHealthy(s, c, want); }
    case _ => OthersPass(s, e);
  }

  lemma ParkingIsHealthy(s: System, c: nat, want: nat)
    requires Enabled(s, Try(c, want)) && s.len == 0
    ensures Healthy(Next(s, Try(c, want))) && Passes(s, Try(c, want))
  {
  }

  predicate CanRun(s: System, es: seq<Event>)
    decreases |es|
  {
    es == [] || (Enabled(s, es[0]) && CanRun(Next(s, es[0]), es[1..]))
  }

  function After(s: System, es: seq<Event>): System
    requires CanRun(s, es)
    decreases |es|
  {
    if es == [] then s else After(Next(s, es[0]), es[1..])
  }

  ghost predicate AllPass(s: System, es: seq<Event>)
    requires CanRun(s, es)
    decreases |es|
  {
    es == [] || (Passes(s, es[0]) && AllPass(Next(s, es[0]), es[1..]))
  }

  /** No wake-up is lost at any moment of the run. */
  ghost predicate HealthyThroughout(s: System, es: seq<Event>)
    requires CanRun(s, es)
    decreases |es|
  {
    Healthy(s) && (es == [] || HealthyThroughout(Next(s, es[0]), es[1..]))
  }

  /** The exact condition, whole runs: no wake-up is lost at any moment if and only if
      every step passes. */
  lemma {:induction false} RunIsExact(s: System, es: seq<Event>)
    requires RegistryExact(s) && Healthy(s) && CanRun(s, es)
    ensures HealthyThroughout(s, es) <==> AllPass(s, es)
    decreases |es|
  {
    hide Healthy, Passes, RegistryExact;
    if es != [] {
      StepIsExact(s, es[0]);
      if Passes(s, es[0]) {
        RunIsExact(Next(s, es[0]), es[1..]);
      } else {
        UnhealthyHere(Next(s, es[0]), es[1..]);
      }
    }
  }

  lemma UnhealthyHere(s: System, es: seq<Event>)
    requires CanRun(s, es) && !Healthy(s)
    ensures !HealthyThroughout(s, es)
  {
  }

  ghost predicate NoneLeaving(s: System) {
    forall c :: !In(s, c, Leaving)
  }

  lemma {:induction false} WithoutTimeoutsAllPass(s: System, es: seq<Event>)
    requires RegistryExact(s) && Healthy(s) && NoneLeaving(s) && CanRun(s, es)
    requires forall i :: 0 <= i < |es| ==> !es[i].TimeOut?
    ensures AllPass(s, es) && HealthyThroughout(s, es)
    decreases |es|
  {
    hide Healthy, RegistryExact;
    if es != [] {
      var s' := Next(s, es[0]);
      assert NoneLeaving(s') && Passes(s, es[0]) by { ListenersPass(s, es[0]); }
      StepIsExact(s, es[0]);
      WithoutTimeoutsAllPass(s', es[1..]);
    }
  }

  lemma ListenersPass(s: System, e: Event)
    requires RegistryExact(s) && NoneLeaving(s) && Enabled(s, e) && !e.TimeOut?
    ensures NoneLeaving(Next(s, e)) && Passes(s, e)
  {
    if SomeParked(s) { ParkedIsWaiting(s); }
    forall c ensures !In(Next(s, e), c, Leaving) {
      assert !In(s, c, Leaving);
    }
  }

  /** No lost wake-up: in every run without timeouts, at every moment, elements in the
      list and a parked client mean that some client has an undelivered signal or is on
      its way to retry. */
  lemma NoLostWakeUp(es: seq<Event>)
    requires CanRun(EMPTY, es) && forall i :: 0 <= i < |es| ==> !es[i].TimeOut?
    ensures HealthyThroughout(EMPTY, es)
  {
    WithoutTimeoutsAllPass(EMPTY, es);
  }

  /** A stirred client pops within three of its own steps, if nobody
      else moves. */
  lemma StirredClientPops(s: System, c: nat, want: nat)
    requires Stirred(s, c) && s.len > 0 && want > 0
    ensures var es := if In(s, c, Parked) then [Receive(c), Deregister(c), Try(c, want)]
                      else if In(s, c, Woken) then [Deregister(c), Try(c, want)]
                      else [Try(c, want)];
            CanRun(s, es) && After(s, es).len < s.len && In(After(s, es), c, Done)
  {
    if In(s, c, Parked) {
      var s1 := Next(s, Receive(c));
      var s2 := Next(s1, Deregister(c));
      TryPops(s2, c, want);
      RunTwo(s1, Deregister(c), Try(c, want));
      assert [Receive(c), Deregister(c), Try(c, want)][1..] == [Deregister(c), Try(c, want)];
    } else if In(s, c, Woken) {
      TryPops(Next(s, Deregister(c)), c, want);
      RunTwo(s, Deregister(c), Try(c, want));
    } else {
      TryPops(s, c, want);
    }
  }

  lemma TryPops(s: System, c: nat, want: nat)
    requires In(s, c, Trying) && s.len > 0 && want > 0
    ensures CanRun(s, [Try(c, want)])
    ensures After(s, [Try(c, want)]).len < s.len && In(After(s, [Try(c, want)]), c, Done)
  {
    assert [Try(c, want)][1..] == [];
  }

  lemma RunTwo(s: System, a: Event, b: Event)
    requires Enabled(s, a) && CanRun(Next(s, a), [b])
    ensures CanRun(s, [a, b]) && After(s, [a, b]) == After(Next(s, a), [b])
  {
    assert [a, b][1..] == [b];
  }

  // ----------------------------------------------------- what steps do to list and registry

  /** How many elements a step adds or, if negative, takes. */
  function Change(s: System, e: Event): int {
    match e
    case Push(n) => n
    case PopWake(n) => 0 - n
    case Pop(n) => 0 - n
    case Try(_, want) => 0 - (if want < s.len then want else s.len)
    case _ => 0
  }

  function Changes(s: System, es: seq<Event>): int
    requires CanRun(s, es)
    decreases |es|
  {
    if es == [] then 0 else Change(s, es[0]) + Changes(Next(s, es[0]), es[1..])
  }

  /** In every run the list holds what was pushed and not popped. */
  lemma {:induction false} ElementsAreKept(s: System, es: seq<Event>)
    requires CanRun(s, es)
    ensures After(s, es).len == s.len + Changes(s, es)
    decreases |es|
  {
    if es != [] { ElementsAreKept(Next(s, es[0]), es[1..]); }
  }

  /** Clients are registered at the end, in the step that finds the list empty, leave it when
      they deregister, and the signal of a step goes to the one that has waited longest. */
  lemma FirstComeFirstSignalled(s: System, e: Event)
    requires Enabled(s, e)
    ensures var s' := Next(s, e);
            && (if e.Try? && s.len == 0 then s'.waiters == s.waiters + [e.c]
                else if e.Deregister? || e.Leave? then
                  forall c :: c in s'.waiters <==> c in s.waiters && c != e.c
                else s'.waiters == s.waiters)
            && (forall c :: c in s'.signalled && c !in s.signalled ==> s.waiters != [] && c == s.waiters[0])
            && (e.Push? && s.waiters != [] ==> s.waiters[0] in s'.signalled)
            && (forall c :: c in s.signalled && c !in s'.signalled ==> e == Receive(c))
  {
    if e.Deregister? || e.Leave? { WithoutMembers(s.waiters, e.c); }
  }

  // ---------------------------------------------------------- why timeouts lose it

  /** Two clients are parked on an empty list and nobody else is about. */
  const TWO_PARKED := System(0, [1, 2], {}, map[1 := Parked, 2 := Parked])

  const PARKING := [Arrive(1), Arrive(2), Try(1, 1), Try(2, 1)]

  lemma TwoParkedIsReachable()
    ensures CanRun(EMPTY, PARKING) && After(EMPTY, PARKING) == TWO_PARKED
  {
    var s1 := Next(EMPTY, Arrive(1));
    var s2 := Next(s1, Arrive(2));
    var s3 := Next(s2, Try(1, 1));
    var t3, t2 := [Try(2, 1)], [Try(1, 1), Try(2, 1)];
    var t1 := [Arrive(2), Try(1, 1), Try(2, 1)];
    assert t3[1..] == [] && Next(s3, Try(2, 1)) == TWO_PARKED;
    assert t2[1..] == t3 && t1[1..] == t2;
    assert PARKING[1..] == t1;
  }

  /** A push signals the first client; its timer fires, it deregisters and replies null.
      The list holds an element, the second client stays parked, and nobody has a signal
      or is on the way.  The timeout is the step that does not pass. */
  lemma TimedOutWaiterLosesWakeUp()
    ensures CanRun(EMPTY, PARKING) && After(EMPTY, PARKING) == TWO_PARKED
    ensures !Passes(Next(TWO_PARKED, Push(1)), TimeOut(1))
    ensures var es := [Push(1), TimeOut(1), Leave(1)];
            && CanRun(TWO_PARKED, es)
            && var s := After(TWO_PARKED, es);
               s.len == 1 && In(s, 2, Parked) && !SomeStirred(s)
  {
    TwoParkedIsReachable();
    var s1 := Next(TWO_PARKED, Push(1));
    var s2 := Next(s1, TimeOut(1));
    var s3 := Next(s2, Leave(1));
    assert s1.signalled == {1} && In(s1, 2, Parked);
    assert [Push(1), TimeOut(1), Leave(1)][1..] == [TimeOut(1), Leave(1)];
    assert [TimeOut(1), Leave(1)][1..] == [Leave(1)] && [Leave(1)][1..] == [];
    assert s3.clients == map[1 := Done, 2 := Parked] && s3.signalled == {1};
  }

  /** The other way round: the first client has timed out and not yet deregistered when
      the push comes, and the signal goes to it. */
  lemma SignalToTimedOutIsLost()
    ensures CanRun(EMPTY, PARKING) && After(EMPTY, PARKING) == TWO_PARKED
    ensures !Passes(Next(TWO_PARKED, TimeOut(1)), Push(1))
    ensures var es := [TimeOut(1), Push(1), Leave(1)];
            && CanRun(TWO_PARKED, es)
            && var s := After(TWO_PARKED, es);
               s.len == 1 && In(s, 2, Parked) && !SomeStirred(s)
  {
    TwoParkedIsReachable();
    var s1 := Next(TWO_PARKED, TimeOut(1));
    var s2 := Next(s1, Push(1));
    var s3 := Next(s2, Leave(1));
    assert s1.signalled == {} && In(s1, 2, Parked);
    assert [TimeOut(1), Push(1), Leave(1)][1..] == [Push(1), Leave(1)];
    assert [Push(1), Leave(1)][1..] == [Leave(1)] && [Leave(1)][1..] == [];
    assert s3.clients == map[1 := Done, 2 := Parked] && s3.signalled == {1};
  }
}
