/**
 The blocking `Dequeue` of the push queue (lib/pushq/pushq.go) and its wake-up channel,
 which holds one signal: producers and `Close` change the queue under the lock and signal
 after they have let go of it; the consumer checks under the lock, and waits on the channel
 after it has let go of it.
 */
module PushWake {
  import opened Basics
  import PQ = PushQueue

  /** Where the consumer is: not in `Dequeue`, about to take the lock, or at its select. */
  datatype Phase = Idle | Checking | Waiting

  /** `owed` counts the producers between their critical section and their signal;
      `notify` says that the channel is full; `served` counts the calls that came back. */
  datatype System<T> = System(w: PQ.World<T>, owed: nat, notify: bool, phase: Phase, served: nat)

  datatype Event<T> =
    | Put(c: PQ.Cell<T>)   // Enqueue up to its unlock
    | Shut                 // Close up to its unlock
    | Signal               // and the signal after it
    | Call                 // the consumer calls Dequeue
    | Check                // takes the lock and looks
    | Receive              // gets the signal at its select
    | Stop                 // or the stop channel fires
    | TryTake              // TryDequeue, of a teardown path

  predicate Enabled<T>(s: System<T>, e: Event<T>) {
    match e
    case Signal => s.owed > 0
    case Call => s.phase.Idle?
    case Check => s.phase.Checking?
    case Receive => s.phase.Waiting? && s.notify
    case Stop => s.phase.Waiting?
    case _ => true
  }

  function Next<T>(s: System<T>, e: Event<T>): System<T>
    requires Enabled(s, e)
  {
    match e
    case Put(c) =>
      s.(w := PQ.Step(s.w, PQ.Put(c)), owed := if PQ.Enqueued(s.w.q, c).1 then s.owed + 1 else s.owed)
    case Shut =>
      if s.w.q.closed then s else s.(w := PQ.Step(s.w, PQ.Shut), owed := s.owed + 1)
    case Signal => s.(owed := s.owed - 1, notify := true)
    case Call => s.(phase := Checking)
    case Check =>
      if s.w.q.cells != [] then s.(w := PQ.Step(s.w, PQ.Take), phase := Idle, served := s.served + 1)
      else if s.w.q.closed then s.(phase := Idle, served := s.served + 1)
      else s.(phase := Waiting)
    case Receive => s.(notify := false, phase := Checking)
    case Stop => s.(phase := Idle, served := s.served + 1)
    case TryTake => s.(w := PQ.Step(s.w, PQ.Take))
  }

  predicate CanRun<T>(s: System<T>, es: seq<Event<T>>)
    decreases |es|
  {
    es == [] || (Enabled(s, es[0]) && CanRun(Next(s, es[0]), es[1..]))
  }

  function After<T>(s: System<T>, es: seq<Event<T>>): System<T>
    requires CanRun(s, es)
    decreases |es|
  {
    if es == [] then s else After(Next(s, es[0]), es[1..])
  }

  function Start<T>(cap: nat): System<T> {
    System(PQ.World(PQ.Queue([], cap, false, false), [], []), 0, false, Idle, 0)
  }

  /** There is an item to hand out, or nothing will ever come. */
  predicate Ready<T>(s: System<T>) {
    s.w.q.cells != [] || s.w.q.closed
  }

  /** A consumer that waits although it could return has a signal in the channel, or one
      that a producer still owes; and the queue is first in, first out all the while. */
  ghost predicate Inv<T>(s: System<T>) {
    PQ.Inv(s.w) && (s.phase.Waiting? && Ready(s) ==> s.notify || s.owed > 0)
  }

  lemma StepKeepsInv<T>(s: System<T>, e: Event<T>)
    requires Inv(s) && Enabled(s, e)
    ensures Inv(Next(s, e))
  {
    hide PQ.Inv, PQ.Bytes;
    PQ.StepKeepsInv(s.w, PQ.Take);
    PQ.StepKeepsInv(s.w, PQ.Shut);
    if e.Put? { PQ.StepKeepsInv(s.w, PQ.Put(e.c)); }
  }

  lemma {:induction false} RunKeepsInv<T>(s: System<T>, es: seq<Event<T>>)
    requires Inv(s) && CanRun(s, es)
    ensures Inv(After(s, es))
    decreases |es|
  {
    hide Inv, Next, Enabled;
    if es != [] {
      StepKeepsInv(s, es[0]);
      RunKeepsInv(Next(s, es[0]), es[1..]);
    }
  }

  /** No wake-up is ever missed: in every reachable state a consumer that waits at its
      select while an item is queued or the queue is closed has its signal, or will get it
      from a producer that has left the lock; and what it has received is, in order, what
      was accepted. */
  lemma NoMissedWakeUp<T>(cap: nat, es: seq<Event<T>>)
    requires CanRun(Start<T>(cap), es)
    ensures var s := After(Start<T>(cap), es);
            && (s.phase.Waiting? && Ready(s) ==> s.notify || s.owed > 0)
            && s.w.accepted == s.w.taken + PQ.Items(s.w.q.cells)
  {
    RunKeepsInv(Start<T>(cap), es);
  }

  /** What a look at the queue gives: the front item if there is one, which leaves the queue;
      nothing more if it is closed; and otherwise the consumer waits.  Stopping hands out
      nothing. */
  lemma LookHandsOut<T>(s: System<T>)
    requires PQ.Inv(s.w)
    ensures s.phase.Checking? ==>
              var s', cells := Next(s, Check), s.w.q.cells;
              if cells != [] then
                && s'.phase.Idle? && s'.served == s.served + 1
                && s'.w.taken == s.w.taken + [cells[0].item] && s'.w.q.cells == cells[1..]
              else
                && s'.w == s.w
                && (if s.w.q.closed then s'.phase.Idle? && s'.served == s.served + 1
                    else s'.phase.Waiting? && s'.served == s.served)
    ensures s.phase.Waiting? ==> Next(s, Stop).w == s.w && Next(s, Stop).phase.Idle?
  {
  }

  /** Steps of the consumer inside its call. */
  predicate Consumes<T>(e: Event<T>) {
    e.Check? || e.Receive?
  }

  function Consumed<T>(es: seq<Event<T>>): nat {
    if es == [] then 0 else (if Consumes(es[0]) then 1 else 0) + Consumed(es[1..])
  }

  lemma {:induction false} ReturnsGrow<T>(s: System<T>, es: seq<Event<T>>)
    requires CanRun(s, es)
    ensures After(s, es).served >= s.served
    decreases |es|
  {
    if es != [] { ReturnsGrow(Next(s, es[0]), es[1..]); }
  }

  lemma ReadyStays<T>(s: System<T>, e: Event<T>)
    requires Ready(s) && Enabled(s, e) && !e.TryTake?
    ensures Next(s, e).served > s.served || Ready(Next(s, e))
  {
  }

  /** And it is always enough: with an item queued or the queue closed, a consumer in its
      call returns by its second step, whatever the producers do in between. */
  lemma {:induction false} TwoStepsReturn<T>(s: System<T>, es: seq<Event<T>>)
    requires CanRun(s, es) && Ready(s) && !s.phase.Idle?
    requires forall i :: 0 <= i < |es| ==> !es[i].TryTake?
    requires Consumed(es) >= (if s.phase.Waiting? then 2 else 1)
    ensures After(s, es).served > s.served
    decreases |es|
  {
    var e, s' := es[0], Next(s, es[0]);
    ReadyStays(s, e);
    if s'.served > s.served {
      ReturnsGrow(s', es[1..]);
    } else {
      TwoStepsReturn(s', es[1..]);
    }
  }

  /** Steps of producers and of `Close`. */
  predicate Produces<T>(e: Event<T>) {
    e.Put? || e.Shut? || e.Signal?
  }

  function Signals<T>(es: seq<Event<T>>): nat {
    if es == [] then 0 else (if es[0].Signal? then 1 else 0) + Signals(es[1..])
  }

  lemma {:induction false} SignalStays<T>(s: System<T>, es: seq<Event<T>>)
    requires CanRun(s, es) && Ready(s) && s.phase.Waiting?
    requires forall i :: 0 <= i < |es| ==> Produces(es[i])
    requires s.notify || Signals(es) > 0
    ensures After(s, es).notify && After(s, es).phase.Waiting? && Ready(After(s, es))
    ensures After(s, es).served == s.served
    decreases |es|
  {
    if es != [] {
      assert Produces(es[0]);
      ReadyStays(s, es[0]);
      SignalStays(Next(s, es[0]), es[1..]);
    }
  }

  /** Waiting is therefore never for ever.  From every reachable state in which a consumer
      waits although it could return, the owed signals can be sent; and once as many
      signals were sent, among any other steps of producers, the consumer can receive and
      its next look at the queue returns. */
  lemma SignalsLetItReturn<T>(cap: nat, es: seq<Event<T>>, more: seq<Event<T>>)
    requires CanRun(Start<T>(cap), es)
    requires var s := After(Start<T>(cap), es);
             s.phase.Waiting? && Ready(s) && CanRun(s, more) && Signals(more) >= s.owed
    requires forall i :: 0 <= i < |more| ==> Produces(more[i])
    ensures var s := After(Start<T>(cap), es);
            CanRun(s, seq(s.owed, _ => Signal)) && After(s, seq(s.owed, _ => Signal)).owed == 0
    ensures var t := After(After(Start<T>(cap), es), more);
            && Enabled(t, Receive)
            && CanRun(t, [Receive, Check])
            && After(t, [Receive, Check]).served == t.served + 1
  {
    hide Inv, CanRun, After;
    var s := After(Start<T>(cap), es);
    NoMissedWakeUp(cap, es);
    OwedCanCome(s);
    SignalStays(s, more);
    ReceiveReturns(After(s, more));
  }

  lemma {:induction false} OwedCanCome<T>(s: System<T>)
    ensures CanRun(s, seq(s.owed, _ => Signal)) && After(s, seq(s.owed, _ => Signal)).owed == 0
    decreases s.owed
  {
    if s.owed > 0 {
      var all: seq<Event<T>> := seq(s.owed, _ => Signal);
      assert all[1..] == seq(Next(s, Signal).owed, _ => Signal);
      OwedCanCome(Next(s, Signal));
    }
  }

  lemma ReceiveReturns<T>(t: System<T>)
    requires t.notify && t.phase.Waiting? && Ready(t)
    ensures CanRun(t, [Receive, Check]) && After(t, [Receive, Check]).served == t.served + 1
  {
    var look := Next(t, Receive);
    var both: seq<Event<T>> := [Receive, Check];
    assert both[1..] == [Check] && both[1..][1..] == [];
    assert CanRun(look, [Check]) && After(look, [Check]) == Next(look, Check);
  }
}
