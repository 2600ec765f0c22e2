/**
 The pause protocol of the shard engine (lib/shard/shard.go).

 Every shard is one goroutine draining a FIFO.  `PauseAll` takes a mutex, draws a
 fresh token and parks the shards one after the other, waiting for each park to be
 acknowledged; a parked shard runs only tasks that carry the token and stashes all
 others; `resume` sends every shard an unpark message and gives the mutex back.

 The model is a transition system: `Event` lists the steps of the shard goroutines,
 of the pause holder and of the ordinary connections, `Enabled` says when a step can
 happen and `Next` what it does.  A shard follows every task with an eviction pass and takes no
 other message in between, so a task here stands for both (`Eviction` has the pass).
 As in the source, a control message is a task with no function, told apart only by the
 state of the shard that reads it.
 */
module PauseProtocol {

  datatype Task = Task(id: nat, tok: nat)

  /** `Control(tok)` is the task with a nil function: a park message carries the
      token of its pause, an unpark message carries 0. */
  datatype Message = Work(task: Task) | Control(tok: nat)

  /** `Draining` is the replay of the stash after an unpark message. */
  datatype Mode = Running | Parked(tok: nat, stash: seq<Task>) | Draining(rest: seq<Task>)

  /** `submitted` and `ran` are logs: the tasks sent to the shard and the tasks it ran. */
  datatype Shard = Shard(queue: seq<Message>, mode: Mode, submitted: seq<Task>, ran: seq<Task>)

  /** Progress of the connection that holds the pause mutex, if any. */
  datatype Phase = Free | Parking(next: nat, sent: bool) | Held | Resuming(next: nat)

  /** `tok` is the token counter; `acked` holds the closed acknowledgement channels. */
  datatype System = System(shards: seq<Shard>, phase: Phase, tok: nat, acked: set<(nat, nat)>)

  datatype Event =
    | Submit(i: nat, id: nat)       // a connection outside any pause sends a task
    | SubmitHeld(i: nat, id: nat)   // the pause holder sends a task with its token
    | Serve(i: nat)                 // the shard goroutine takes its next step
    | Sweep(i: nat)                 // the shard's expiry timer fires
    | Begin | SendPark | AwaitAck   // PauseAll
    | Release | SendUnpark          // resume

  // ---------------------------------------------------------------- transitions

  function Initial(n: nat): System {
    System(seq(n, _ => Shard([], Running, [], [])), Free, 0, {})
  }

  /** No task of the pause holder is waiting in a queue: `DoTok` and `DoMultiTok`
      return only when their tasks have run, so this holds when resume is called. */
  predicate HolderIdle(s: System) {
    forall j :: 0 <= j < |s.shards| ==> Tokened(Tasks(s.shards[j].queue)) == []
  }

  predicate Enabled(s: System, e: Event) {
    match e
    case Submit(i, _) => i < |s.shards|
    case SubmitHeld(i, _) => i < |s.shards| && s.phase.Held?
    case Serve(i) => i < |s.shards| && (s.shards[i].queue != [] || s.shards[i].mode.Draining?)
    case Sweep(i) => i < |s.shards| && s.shards[i].mode.Running?
    case Begin => s.phase.Free? && s.shards != []
    case SendPark => s.phase.Parking? && !s.phase.sent && s.phase.next < |s.shards|
    case AwaitAck => s.phase.Parking? && s.phase.sent && (s.tok, s.phase.next) in s.acked
    case Release => s.phase.Held? && HolderIdle(s)
    case SendUnpark => s.phase.Resuming? && s.phase.next < |s.shards|
  }

  function Send(sh: Shard, m: Message): Shard {
    sh.(queue := sh.queue + [m],
        submitted := if m.Work? then sh.submitted + [m.task] else sh.submitted)
  }

  function Run(sh: Shard, t: Task): Shard {
    sh.(ran := sh.ran + [t])
  }

  function Resumed(rest: seq<Task>): Mode {
    if rest == [] then Running else Draining(rest)
  }

  /** One step of the shard goroutine: the bodies of `run` and `park`. */
  function ServeShard(sh: Shard): Shard
    requires sh.queue != [] || (sh.mode.Draining? && sh.mode.rest != [])
  {
    if sh.mode.Draining? && sh.mode.rest != [] then
      Run(sh, sh.mode.rest[0]).(mode := Resumed(sh.mode.rest[1..]))
    else if sh.queue == [] then
      sh
    else
      var m, rest := sh.queue[0], sh.(queue := sh.queue[1..]);
      match sh.mode
      case Parked(tok, stash) =>
        if m.Control? then rest.(mode := Resumed(stash))
        else if m.task.tok == tok then Run(rest, m.task)
        else rest.(mode := Parked(tok, stash + [m.task]))
      case _ =>
        if m.Control? then rest.(mode := Parked(m.tok, []))
        else Run(rest, m.task)
  }

  /** The acknowledgement channel the step closes, if it reads a control message
      as a park message. */
  function Acks(s: System, i: nat): set<(nat, nat)>
    requires i < |s.shards| && Enabled(s, Serve(i))
  {
    var sh := s.shards[i];
    if sh.mode.Running? && sh.queue != [] && sh.queue[0].Control?
    then {(sh.queue[0].tok, i)} else {}
  }

  function Next(s: System, e: Event): System
    requires Enabled(s, e) && WellFormed(s)
  {
    match e
    case Submit(i, id) => s.(shards := s.shards[i := Send(s.shards[i], Work(Task(id, 0)))])
    case SubmitHeld(i, id) => s.(shards := s.shards[i := Send(s.shards[i], Work(Task(id, s.tok)))])
    case Serve(i) => s.(shards := s.shards[i := ServeShard(s.shards[i])], acked := s.acked + Acks(s, i))
    case Sweep(i) => s
    case Begin => s.(phase := Parking(0, false), tok := s.tok + 1)
    case SendPark =>
      var i := s.phase.next;
      s.(shards := s.shards[i := Send(s.shards[i], Control(s.tok))], phase := Parking(i, true))
    case AwaitAck =>
      var i := s.phase.next;
      s.(phase := if i + 1 < |s.shards| then Parking(i + 1, false) else Held)
    case Release => s.(phase := Resuming(0))
    case SendUnpark =>
      var i := s.phase.next;
      s.(shards := s.shards[i := Send(s.shards[i], Control(0))],
         phase := if i + 1 < |s.shards| then Resuming(i + 1) else Free)
  }

  /** The task a step runs, if any. */
  function Executes(s: System, e: Event): seq<Task>
    requires Enabled(s, e) && WellFormed(s)
  {
    if e.Serve? then ServeShard(s.shards[e.i]).ran[|s.shards[e.i].ran|..] else []
  }

  predicate WellFormed(s: System) {
    forall j :: 0 <= j < |s.shards| ==> s.shards[j].mode.Draining? ==> s.shards[j].mode.rest != []
  }

  // -------------------------------------------------------------- projections

  function Tasks(q: seq<Message>): seq<Task> {
    if q == [] then []
    else if q[0].Work? then [q[0].task] + Tasks(q[1..])
    else Tasks(q[1..])
  }

  function Controls(q: seq<Message>): seq<nat> {
    if q == [] then []
    else if q[0].Control? then [q[0].tok] + Controls(q[1..])
    else Controls(q[1..])
  }

  function Plain(ts: seq<Task>): seq<Task> {
    if ts == [] then []
    else if ts[0].tok == 0 then [ts[0]] + Plain(ts[1..])
    else Plain(ts[1..])
  }

  function Tokened(ts: seq<Task>): seq<Task> {
    if ts == [] then []
    else if ts[0].tok != 0 then [ts[0]] + Tokened(ts[1..])
    else Tokened(ts[1..])
  }

  lemma {:induction false} TasksSnoc(q: seq<Message>, m: Message)
    ensures Tasks(q + [m]) == if m.Work? then Tasks(q) + [m.task] else Tasks(q)
  {
    if q != [] {
      assert (q + [m])[1..] == q[1..] + [m];
      TasksSnoc(q[1..], m);
    }
  }

  lemma {:induction false} ControlsSnoc(q: seq<Message>, m: Message)
    ensures Controls(q + [m]) == if m.Control? then Controls(q) + [m.tok] else Controls(q)
  {
    if q != [] {
      assert (q + [m])[1..] == q[1..] + [m];
      ControlsSnoc(q[1..], m);
    }
  }

  lemma {:induction false} PlainSnoc(ts: seq<Task>, t: Task)
    ensures Plain(ts + [t]) == if t.tok == 0 then Plain(ts) + [t] else Plain(ts)
  {
    if ts != [] {
      assert (ts + [t])[1..] == ts[1..] + [t];
      PlainSnoc(ts[1..], t);
    }
  }

  lemma {:induction false} TokenedSnoc(ts: seq<Task>, t: Task)
    ensures Tokened(ts + [t]) == if t.tok != 0 then Tokened(ts) + [t] else Tokened(ts)
  {
    if ts != [] {
      assert (ts + [t])[1..] == ts[1..] + [t];
      TokenedSnoc(ts[1..], t);
    }
  }

  // ---------------------------------------------------------------- invariant

  /** Tasks the shard has taken from its queue and put aside. */
  function Aside(m: Mode): seq<Task> {
    match m
    case Running => []
    case Parked(_, stash) => stash
    case Draining(rest) => rest
  }

  /** No pause is on its way to this shard: it is out of the paused loop, or the
      unpark message that will take it out is in its queue. */
  predicate Settled(sh: Shard) {
    Controls(sh.queue) == if sh.mode.Parked? then [0] else []
  }

  /** The park message of pause `tok` is in the queue, behind at most one unpark. */
  predicate Coming(sh: Shard, tok: nat) {
    Controls(sh.queue) == if sh.mode.Parked? then [0, tok] else [tok]
  }

  /** Parked under `tok`, and no control message is queued. */
  predicate Acquired(sh: Shard, tok: nat) {
    sh.mode.Parked? && sh.mode.tok == tok && Controls(sh.queue) == []
  }

  predicate TokenOnly(ts: seq<Task>, tok: nat) {
    forall k :: 0 <= k < |ts| ==> ts[k].tok == tok
  }

  /** Nothing is lost, duplicated or reordered: the ordinary tasks ran, put aside and
      queued, in this order, are exactly the ordinary tasks submitted; likewise for
      tasks with a token, which are never put aside. */
  predicate Conserves(sh: Shard) {
    && Plain(sh.submitted) == Plain(sh.ran) + Aside(sh.mode) + Plain(Tasks(sh.queue))
    && Tokened(sh.submitted) == Tokened(sh.ran) + Tokened(Tasks(sh.queue))
    && TokenOnly(Aside(sh.mode), 0)
    && (sh.mode.Parked? ==> sh.mode.tok > 0)
    && (sh.mode.Draining? ==> sh.mode.rest != [])
  }

  /** The holder's own tasks are the only ones with a token, and only while it holds
      the whole engine. */
  predicate Discipline(s: System, sh: Shard) {
    && TokenOnly(Tokened(Tasks(sh.queue)), s.tok)
    && (!s.phase.Held? ==> Tokened(Tasks(sh.queue)) == [])
  }

  /** Where shard j stands, given the progress of the pause. */
  predicate Placed(s: System, j: nat)
    requires j < |s.shards|
  {
    var sh := s.shards[j];
    match s.phase
    case Free => Settled(sh)
    case Held => Acquired(sh, s.tok)
    case Resuming(i) => if j < i then Settled(sh) else Acquired(sh, s.tok)
    case Parking(i, sent) =>
      if j < i then Acquired(sh, s.tok)
      else if j == i && sent then
        if (s.tok, j) in s.acked then Acquired(sh, s.tok) else Coming(sh, s.tok)
      else Settled(sh) && (s.tok, j) !in s.acked
  }

  ghost predicate Inv(s: System) {
    && (forall p :: p in s.acked ==> p.0 <= s.tok)
    && (!s.phase.Free? ==> s.tok > 0 && s.shards != [])
    && (s.phase.Parking? ==> s.phase.next < |s.shards|)
    && (s.phase.Resuming? ==> s.phase.next < |s.shards|)
    && (forall j :: 0 <= j < |s.shards| ==>
          Conserves(s.shards[j]) && Discipline(s, s.shards[j]) && Placed(s, j))
  }

  // ------------------------------------------------- the steps keep the invariant

  lemma SendConserves(sh: Shard, m: Message)
    requires Conserves(sh)
    ensures Conserves(Send(sh, m))
    ensures Controls(Send(sh, m).queue) == if m.Control? then Controls(sh.queue) + [m.tok] else Controls(sh.queue)
    ensures m.Control? || m.task.tok == 0 ==> Tokened(Tasks(Send(sh, m).queue)) == Tokened(Tasks(sh.queue))
    ensures m.Work? && m.task.tok != 0 ==>
              Tokened(Tasks(Send(sh, m).queue)) == Tokened(Tasks(sh.queue)) + [m.task]
  {
    hide Tasks, Controls, Plain, Tokened;
    TasksSnoc(sh.queue, m);
    ControlsSnoc(sh.queue, m);
    if m.Work? {
      PlainSnoc(sh.submitted, m.task);
      TokenedSnoc(sh.submitted, m.task);
      PlainSnoc(Tasks(sh.queue), m.task);
      TokenedSnoc(Tasks(sh.queue), m.task);
    }
  }

  /** The head of the queue carries a token only if it is the token the shard is
      parked under. */
  predicate HeadFits(sh: Shard) {
    sh.queue != [] && sh.queue[0].Work? && sh.queue[0].task.tok != 0 ==>
      sh.mode.Parked? && sh.mode.tok == sh.queue[0].task.tok
  }

  lemma DrainConserves(sh: Shard)
    requires Conserves(sh) && sh.mode.Draining?
    ensures Conserves(ServeShard(sh))
  {
    var t, rest := sh.mode.rest[0], sh.mode.rest[1..];
    var sh' := ServeShard(sh);
    assert t.tok == 0 && TokenOnly(rest, 0);
    PlainSnoc(sh.ran, t);
    TokenedSnoc(sh.ran, t);
    assert Aside(sh'.mode) == rest;
    Regroup(Plain(sh.ran), sh.mode.rest, Plain(Tasks(sh.queue)));
  }

  lemma Regroup(a: seq<Task>, b: seq<Task>, c: seq<Task>)
    requires b != []
    ensures a + b + c == (a + [b[0]]) + b[1..] + c
  {
    assert b == [b[0]] + b[1..];
  }

  lemma ControlConserves(sh: Shard)
    requires Conserves(sh) && !sh.mode.Draining?
    requires sh.queue != [] && sh.queue[0].Control?
    requires sh.mode.Running? ==> sh.queue[0].tok > 0
    ensures Conserves(ServeShard(sh))
    ensures Controls(sh.queue) == [sh.queue[0].tok] + Controls(ServeShard(sh).queue)
  {
    assert Tasks(sh.queue) == Tasks(sh.queue[1..]);
  }

  lemma PlainCons(t: Task, b: seq<Task>)
    ensures Plain([t] + b) == if t.tok == 0 then [t] + Plain(b) else Plain(b)
  {
    assert ([t] + b)[1..] == b;
  }

  lemma PlainRun(a: seq<Task>, aside: seq<Task>, t: Task, b: seq<Task>)
    requires t.tok == 0 ==> aside == []
    ensures Plain(a) + aside + Plain([t] + b) == Plain(a + [t]) + aside + Plain(b)
  {
    hide Plain;
    PlainSnoc(a, t);
    PlainCons(t, b);
    if t.tok == 0 {
      var p, q := Plain(a), Plain(b);
      assert p + [] + ([t] + q) == p + [t] + [] + q;
    }
  }

  lemma TokenedRun(a: seq<Task>, t: Task, b: seq<Task>)
    ensures Tokened(a) + Tokened([t] + b) == Tokened(a + [t]) + Tokened(b)
  {
    TokenedSnoc(a, t);
    assert ([t] + b)[1..] == b;
    if t.tok != 0 {
      var p, q := Tokened(a), Tokened(b);
      assert p + ([t] + q) == p + [t] + q;
    }
  }

  lemma RunConserves(sh: Shard)
    requires Conserves(sh) && !sh.mode.Draining?
    requires sh.queue != [] && sh.queue[0].Work? && HeadFits(sh)
    requires sh.mode.Parked? ==> sh.queue[0].task.tok == sh.mode.tok
    ensures Conserves(ServeShard(sh))
  {
    var t, q := sh.queue[0].task, sh.queue[1..];
    assert Tasks(sh.queue) == [t] + Tasks(q);
    PlainRun(sh.ran, Aside(sh.mode), t, Tasks(q));
    TokenedRun(sh.ran, t, Tasks(q));
  }

  lemma StashConserves(sh: Shard)
    requires Conserves(sh) && sh.mode.Parked?
    requires sh.queue != [] && sh.queue[0].Work? && HeadFits(sh)
    requires sh.queue[0].task.tok != sh.mode.tok
    ensures Conserves(ServeShard(sh))
  {
    var t, q := sh.queue[0].task, sh.queue[1..];
    assert Tasks(sh.queue) == [t] + Tasks(q);
    assert ([t] + Tasks(q))[1..] == Tasks(q);
    assert Plain(sh.ran) + sh.mode.stash + ([t] + Plain(Tasks(q)))
        == Plain(sh.ran) + (sh.mode.stash + [t]) + Plain(Tasks(q));
  }

  /** A shard step conserves tasks, and what it does to the control messages. */
  lemma ServeConserves(sh: Shard)
    requires Conserves(sh) && (sh.queue != [] || sh.mode.Draining?) && HeadFits(sh)
    requires sh.mode.Running? && Controls(sh.queue) != [] ==> Controls(sh.queue)[0] > 0
    ensures Conserves(ServeShard(sh))
    ensures !sh.mode.Draining? && sh.queue[0].Control? ==>
              Controls(sh.queue) == [sh.queue[0].tok] + Controls(ServeShard(sh).queue)
              && Controls(ServeShard(sh).queue) == Controls(sh.queue)[1..]
    ensures sh.mode.Draining? || sh.queue[0].Work? ==> Controls(ServeShard(sh).queue) == Controls(sh.queue)
    ensures var a, b := Tokened(Tasks(sh.queue)), Tokened(Tasks(ServeShard(sh).queue));
            b == a || (a != [] && b == a[1..])
  {
    if sh.mode.Draining? {
      DrainConserves(sh);
    } else if sh.queue[0].Control? {
      assert Controls(sh.queue)[0] == sh.queue[0].tok;
      ControlConserves(sh);
    } else {
      var t, q := sh.queue[0].task, sh.queue[1..];
      assert Tasks(sh.queue) == [t] + Tasks(q);
      assert ([t] + Tasks(q))[1..] == Tasks(q);
      if sh.mode.Parked? && t.tok != sh.mode.tok {
        StashConserves(sh);
      } else {
        RunConserves(sh);
      }
    }
  }

  /** Under the invariant a shard step never meets a control message it would read
      as the other kind, and never meets a task of a pause it is not parked under. */
  lemma ControlsReadAsSent(s: System, i: nat)
    requires Inv(s) && i < |s.shards|
    ensures HeadFits(s.shards[i])
    ensures var sh := s.shards[i];
            sh.queue != [] && sh.queue[0].Control? ==>
              (sh.mode.Parked? ==> sh.queue[0].tok == 0) && (!sh.mode.Parked? ==> sh.queue[0].tok == s.tok > 0)
  {
    var sh := s.shards[i];
    assert Conserves(sh) && Discipline(s, sh) && Placed(s, i);
    if sh.queue != [] {
      if sh.queue[0].Control? {
        assert Controls(sh.queue)[0] == sh.queue[0].tok;
      } else if sh.queue[0].task.tok != 0 {
        var t := sh.queue[0].task;
        assert Tasks(sh.queue)[0] == t;
        assert Tokened(Tasks(sh.queue))[0] == t;
      }
    }
  }

  lemma SubmitKeepsInv(s: System, i: nat, t: Task)
    requires Inv(s) && i < |s.shards|
    requires t.tok == 0 || (s.phase.Held? && t.tok == s.tok)
    ensures Inv(s.(shards := s.shards[i := Send(s.shards[i], Work(t))]))
  {
    hide Tasks, Controls, Plain, Tokened, Conserves;
    var s' := s.(shards := s.shards[i := Send(s.shards[i], Work(t))]);
    SendConserves(s.shards[i], Work(t));
    assert Conserves(s.shards[i]) && Discipline(s, s.shards[i]) && Placed(s, i);
    forall j | 0 <= j < |s'.shards|
      ensures Conserves(s'.shards[j]) && Discipline(s', s'.shards[j]) && Placed(s', j)
    {
      assert Conserves(s.shards[j]) && Discipline(s, s.shards[j]) && Placed(s, j);
    }
  }

  /** What a step of shard i does to its own place. */
  lemma ServeKeepsPlace(s: System, i: nat)
    requires Inv(s) && WellFormed(s) && Enabled(s, Serve(i))
    ensures var s' := Next(s, Serve(i));
            Conserves(s'.shards[i]) && Discipline(s', s'.shards[i]) && Placed(s', i)
    ensures forall p :: p in Acks(s, i) ==> p == (s.tok, i)
  {
    hide Tasks, Controls, Plain, Tokened, Conserves;
    var sh := s.shards[i];
    assert Conserves(sh) && Discipline(s, sh) && Placed(s, i);
    assert sh.mode.Draining? ==> sh.mode.rest != [];
    ControlsReadAsSent(s, i);
    assert sh.mode.Running? && Controls(sh.queue) != [] ==> Controls(sh.queue)[0] > 0;
    ServeConserves(sh);
  }

  lemma ServeKeepsInv(s: System, i: nat)
    requires Inv(s) && WellFormed(s) && Enabled(s, Serve(i))
    ensures Inv(Next(s, Serve(i)))
  {
    hide Tasks, Controls, Plain, Tokened, Conserves, ServeShard;
    var s' := Next(s, Serve(i));
    ServeKeepsPlace(s, i);
    forall j | 0 <= j < |s'.shards|
      ensures Conserves(s'.shards[j]) && Discipline(s', s'.shards[j]) && Placed(s', j)
    {
      if j != i {
        assert Conserves(s.shards[j]) && Discipline(s, s.shards[j]) && Placed(s, j);
        assert s'.shards[j] == s.shards[j];
        assert (s.tok, j) in s'.acked <==> (s.tok, j) in s.acked;
      }
    }
  }

  lemma SendControlKeepsInv(s: System, e: Event)
    requires Inv(s) && WellFormed(s) && Enabled(s, e) && (e.SendPark? || e.SendUnpark?)
    ensures Inv(Next(s, e))
  {
    hide Tasks, Controls, Plain, Tokened, Conserves;
    var s' := Next(s, e);
    var i := s.phase.next;
    var m := if e.SendPark? then Control(s.tok) else Control(0);
    SendConserves(s.shards[i], m);
    forall j | 0 <= j < |s'.shards|
      ensures Conserves(s'.shards[j]) && Discipline(s', s'.shards[j]) && Placed(s', j)
    {
      assert Conserves(s.shards[j]) && Discipline(s, s.shards[j]) && Placed(s, j);
      if j == i {
        assert s'.shards[j] == Send(s.shards[i], m);
      }
    }
  }

  lemma PhaseKeepsInv(s: System, e: Event)
    requires Inv(s) && WellFormed(s) && Enabled(s, e) && (e.Begin? || e.AwaitAck? || e.Release? || e.Sweep?)
    ensures Inv(Next(s, e))
  {
    var s' := Next(s, e);
    forall j | 0 <= j < |s'.shards|
      ensures Conserves(s'.shards[j]) && Discipline(s', s'.shards[j]) && Placed(s', j)
    {
      assert Conserves(s.shards[j]) && Discipline(s, s.shards[j]) && Placed(s, j);
      if e.Begin? {
        assert (s'.tok, j) !in s.acked;
      }
    }
  }

  lemma NextKeepsInv(s: System, e: Event)
    requires Inv(s) && WellFormed(s) && Enabled(s, e)
    ensures Inv(Next(s, e))
  {
    match e
    case Submit(i, id) => SubmitKeepsInv(s, i, Task(id, 0));
    case SubmitHeld(i, id) => SubmitKeepsInv(s, i, Task(id, s.tok));
    case Serve(i) => ServeKeepsInv(s, i);
    case SendPark => SendControlKeepsInv(s, e);
    case SendUnpark => SendControlKeepsInv(s, e);
    case _ => PhaseKeepsInv(s, e);
  }

  // --------------------------------------------------------------------- runs

  /** The events can happen one after the other from s. */
  predicate CanRun(s: System, es: seq<Event>)
    decreases |es|
  {
    es == [] || (WellFormed(s) && Enabled(s, es[0]) && CanRun(Next(s, es[0]), es[1..]))
  }

  function After(s: System, es: seq<Event>): System
    requires CanRun(s, es)
    decreases |es|
  {
    if es == [] then s else After(Next(s, es[0]), es[1..])
  }

  lemma {:induction false} RunKeepsInv(s: System, es: seq<Event>)
    requires Inv(s) && CanRun(s, es)
    ensures Inv(After(s, es))
    decreases |es|
  {
    if es != [] {
      NextKeepsInv(s, es[0]);
      RunKeepsInv(Next(s, es[0]), es[1..]);
    }
  }

  /** Every reachable state satisfies the invariant, for any number of shards,
      connections and pauses. */
  lemma ReachableInv(n: nat, es: seq<Event>)
    requires CanRun(Initial(n), es)
    ensures Inv(After(Initial(n), es))
  {
    RunKeepsInv(Initial(n), es);
  }

  /** The shard belongs to the pause: from the acknowledgement of its park message
      until its unpark message is sent. */
  predicate Owned(s: System, j: nat) {
    match s.phase
    case Free => false
    case Parking(i, sent) => j < i || (j == i && sent && (s.tok, j) in s.acked)
    case Held => true
    case Resuming(i) => j >= i
  }

  lemma HeadIsWork(q: seq<Message>)
    requires q != [] && Controls(q) == []
    ensures q[0].Work?
  {
  }

  /** Exclusion, one step: no step runs a task on an owned shard unless the task
      carries the token of the pause, and no expiry sweep starts there. */
  lemma OwnedShardRunsOnlyTheHolder(s: System, e: Event)
    requires Inv(s) && WellFormed(s) && Enabled(s, e)
    ensures e.Sweep? ==> !Owned(s, e.i)
    ensures e.Serve? && Owned(s, e.i) ==> TokenOnly(Executes(s, e), s.tok)
  {
    if e.Sweep? || e.Serve? {
      assert Placed(s, e.i) && Discipline(s, s.shards[e.i]) && Conserves(s.shards[e.i]);
      if e.Serve? && Owned(s, e.i) {
        assert Acquired(s.shards[e.i], s.tok);
        HeadIsWork(s.shards[e.i].queue);
      }
    }
  }

  /** The pause stays in force through the whole run. */
  predicate StaysHeld(s: System, es: seq<Event>)
    requires CanRun(s, es)
    decreases |es|
  {
    s.phase.Held? && (es == [] || StaysHeld(Next(s, es[0]), es[1..]))
  }

  /** Exclusion, whole runs: while the pause is held the token does not change, and
      what every shard runs is tasks of the holder and nothing else. */
  lemma {:induction false} HeldIsExclusive(s: System, es: seq<Event>, j: nat)
    requires Inv(s) && CanRun(s, es) && StaysHeld(s, es) && j < |s.shards|
    ensures var s' := After(s, es);
            && s'.tok == s.tok && |s'.shards| == |s.shards|
            && s.shards[j].ran <= s'.shards[j].ran
            && TokenOnly(s'.shards[j].ran[|s.shards[j].ran|..], s.tok)
    decreases |es|
  {
    if es != [] {
      var e := es[0];
      var m := Next(s, e);
      NextKeepsInv(s, e);
      HeldStep(s, e, j);
      HeldIsExclusive(m, es[1..], j);
      RunsJoin(s.shards[j].ran, m.shards[j].ran, After(s, es).shards[j].ran, s.tok);
    }
  }

  lemma HeldStep(s: System, e: Event, j: nat)
    requires Inv(s) && WellFormed(s) && Enabled(s, e) && s.phase.Held? && Next(s, e).phase.Held? && j < |s.shards|
    ensures var s' := Next(s, e);
            && s'.tok == s.tok && |s'.shards| == |s.shards|
            && s.shards[j].ran <= s'.shards[j].ran
            && TokenOnly(s'.shards[j].ran[|s.shards[j].ran|..], s.tok)
  {
    OwnedShardRunsOnlyTheHolder(s, e);
  }

  lemma RunsJoin(a: seq<Task>, b: seq<Task>, c: seq<Task>, tok: nat)
    requires a <= b <= c && TokenOnly(b[|a|..], tok) && TokenOnly(c[|b|..], tok)
    ensures TokenOnly(c[|a|..], tok)
  {
    assert c[|a|..] == b[|a|..] + c[|b|..];
  }

  lemma {:induction false} TokenedJoin(a: seq<Task>, b: seq<Task>)
    ensures Tokened(a + b) == Tokened(a) + Tokened(b)
  {
    if a == [] {
      assert a + b == b;
    } else {
      assert (a + b)[1..] == a[1..] + b;
      TokenedJoin(a[1..], b);
    }
  }

  lemma {:induction false} TokenedAll(ts: seq<Task>, tok: nat)
    requires TokenOnly(ts, tok) && tok > 0
    ensures Tokened(ts) == ts
  {
    if ts != [] {
      assert TokenOnly(ts[1..], tok) by { assert forall k :: 0 <= k < |ts[1..]| ==> ts[1..][k] == ts[k + 1]; }
      TokenedAll(ts[1..], tok);
    }
  }

  /** What a shard has made of its data after the tasks it ran.  The effect of a task is its
      function and then the eviction pass after it. */
  function Data<D>(effect: (D, Task) -> D, d: D, ran: seq<Task>): D
    decreases |ran|
  {
    if ran == [] then d else effect(Data(effect, d, ran[..|ran| - 1]), ran[|ran| - 1])
  }

  lemma {:induction false} DataJoin<D>(effect: (D, Task) -> D, d: D, a: seq<Task>, b: seq<Task>)
    ensures Data(effect, d, a + b) == Data(effect, Data(effect, d, a), b)
    decreases |b|
  {
    if b == [] {
      assert a + b == a;
    } else {
      var front := b[..|b| - 1];
      DataJoin(effect, d, a, front);
      assert (a + b)[..|a + b| - 1] == a + front;
    }
  }

  /** Atomicity of a hold: between two moments at which the holder is not waiting for a
      task of its own, every shard runs exactly the tasks the holder submitted in between,
      in its order; the data of the shard moves by those tasks alone, each with the eviction
      pass after it. */
  lemma HoldIsAtomic<D>(s: System, es: seq<Event>, j: nat, effect: (D, Task) -> D, d: D)
    requires Inv(s) && CanRun(s, es) && StaysHeld(s, es) && j < |s.shards|
    requires HolderIdle(s) && HolderIdle(After(s, es))
    ensures j < |After(s, es).shards|
    ensures var a, b := s.shards[j], After(s, es).shards[j];
            && Tokened(a.submitted) <= Tokened(b.submitted)
            && var own := Tokened(b.submitted)[|Tokened(a.submitted)|..];
               && b.ran == a.ran + own
               && Data(effect, d, b.ran) == Data(effect, Data(effect, d, a.ran), own)
  {
    hide Tokened, Tasks, Plain, Controls, Data, StaysHeld, CanRun, After;
    HeldIsExclusive(s, es, j);
    RunKeepsInv(s, es);
    HoldStarts(s, es);
    var a, b := s.shards[j], After(s, es).shards[j];
    assert Conserves(a) && Conserves(b);
    var own := b.ran[|a.ran|..];
    assert b.ran == a.ran + own;
    TokenedJoin(a.ran, own);
    TokenedAll(own, s.tok);
    assert Tokened(b.submitted) == Tokened(a.submitted) + own;
    DataJoin(effect, d, a.ran, own);
  }

  lemma HoldStarts(s: System, es: seq<Event>)
    requires Inv(s) && CanRun(s, es) && StaysHeld(s, es)
    ensures s.tok > 0
  {
  }

  /** Order and conservation, whole runs: on every shard the ordinary tasks have run
      in submission order, with no gap and no repeat, and once the shard is idle
      every task submitted to it has run exactly once. */
  lemma OrdinaryTasksRunInOrder(n: nat, es: seq<Event>, j: nat)
    requires CanRun(Initial(n), es) && j < |After(Initial(n), es).shards|
    ensures var sh := After(Initial(n), es).shards[j];
            && Plain(sh.ran) <= Plain(sh.submitted)
            && Tokened(sh.ran) <= Tokened(sh.submitted)
            && (sh.queue == [] && Aside(sh.mode) == [] ==> multiset(sh.ran) == multiset(sh.submitted))
  {
    ReachableInv(n, es);
    var sh := After(Initial(n), es).shards[j];
    assert Conserves(sh);
    SplitIsPermutation(sh.ran);
    SplitIsPermutation(sh.submitted);
  }

  lemma {:induction false} SplitIsPermutation(ts: seq<Task>)
    ensures multiset(ts) == multiset(Plain(ts)) + multiset(Tokened(ts))
  {
    if ts != [] {
      SplitIsPermutation(ts[1..]);
      assert ts == [ts[0]] + ts[1..];
    }
  }

  // ----------------------------------------------------------------- progress

  /** An upper bound on the steps shard i still takes before it reads the park
      message it has been sent: the tasks in front of it, counted twice because a
      task may first be stashed, and the tasks already put aside. */
  function Backlog(sh: Shard): nat {
    2 * Ahead(sh.queue) + |Aside(sh.mode)|
  }

  /** Messages up to and including the last control message. */
  function Ahead(q: seq<Message>): nat {
    if q == [] then 0
    else if q[|q| - 1].Control? then |q|
    else Ahead(q[..|q| - 1])
  }

  lemma {:induction false} AheadOfTail(q: seq<Message>)
    requires q != []
    ensures Ahead(q[1..]) == if Ahead(q) == 0 then 0 else Ahead(q) - 1
    ensures Ahead(q) == 0 ==> Controls(q) == []
    ensures Ahead(q) <= |q|
  {
    var front, last := q[..|q| - 1], q[|q| - 1];
    if last.Control? {
    } else if front == [] {
      assert q == [last];
    } else {
      AheadOfTail(front);
      assert q[1..][..|q| - 2] == front[1..];
      assert q == front + [last];
      ControlsSnoc(front, last);
    }
  }

  /** `PauseAll` waits for the acknowledgement of the park message it sent to a shard. */
  predicate Waiting(s: System) {
    s.phase.Parking? && s.phase.sent && (s.tok, s.phase.next) !in s.acked
  }

  /** While `PauseAll` waits for shard i, that shard can always take a step, every step it
      takes brings the acknowledgement nearer or gives it, and no other event moves it
      away. */
  lemma ParkComesNearer(s: System, e: Event)
    requires Inv(s) && WellFormed(s) && Enabled(s, e) && Waiting(s)
    ensures Enabled(s, Serve(s.phase.next))
    ensures var i, s' := s.phase.next, Next(s, e);
            && s'.phase == s.phase && s'.tok == s.tok && s.acked <= s'.acked
            && (if e == Serve(i) then (s.tok, i) in s'.acked || Backlog(s'.shards[i]) < Backlog(s.shards[i])
                else Backlog(s'.shards[i]) == Backlog(s.shards[i]))
  {
    hide Tasks, Controls, Plain, Tokened, Conserves, Discipline;
    var i := s.phase.next;
    var sh := s.shards[i];
    assert Placed(s, i) && Conserves(sh);
    ControlsReadAsSent(s, i);
    NoControlsWhenEmpty(sh.queue);
    if e == Serve(i) {
      AheadOfTail(sh.queue);
      if !sh.mode.Running? || sh.queue[0].Work? { StepsNearer(sh); }
    } else if e.Submit? && e.i == i {
      WorkBehind(sh.queue, Task(e.id, 0));
    }
  }

  /** The steps shard i takes in a run. */
  function Serves(es: seq<Event>, i: nat): nat {
    if es == [] then 0 else (if es[0] == Serve(i) then 1 else 0) + Serves(es[1..], i)
  }

  lemma {:induction false} AckedGrows(s: System, es: seq<Event>)
    requires CanRun(s, es)
    ensures s.acked <= After(s, es).acked
    decreases |es|
  {
    if es != [] { AckedGrows(Next(s, es[0]), es[1..]); }
  }

  /** Bounded waiting, whole runs: in every run in which the shard that `PauseAll` waits
      for takes more than `Backlog` steps, whatever the other shards and connections do,
      its park is acknowledged. */
  lemma {:induction false} ParkIsReached(s: System, es: seq<Event>)
    requires Inv(s) && CanRun(s, es) && Waiting(s)
    requires s.phase.next < |s.shards| && Serves(es, s.phase.next) > Backlog(s.shards[s.phase.next])
    ensures (s.tok, s.phase.next) in After(s, es).acked
    decreases |es|
  {
    hide Inv, Next, Backlog;
    var e, s' := es[0], Next(s, es[0]);
    NextKeepsInv(s, e);
    ParkComesNearer(s, e);
    if Waiting(s') {
      SameShards(s, e);
      ParkIsReached(s', es[1..]);
    } else {
      AckedGrows(s', es[1..]);
    }
  }

  lemma SameShards(s: System, e: Event)
    requires WellFormed(s) && Enabled(s, e)
    ensures |Next(s, e).shards| == |s.shards|
  {
  }

  lemma NoControlsWhenEmpty(q: seq<Message>)
    ensures q == [] ==> Controls(q) == []
  {
  }

  lemma WorkBehind(q: seq<Message>, t: Task)
    ensures Ahead(q + [Work(t)]) == Ahead(q)
  {
    assert (q + [Work(t)])[..|q|] == q;
  }

  /** A step of a shard that has a control message in its queue, unless it reads one in
      its main loop, shortens the backlog. */
  lemma StepsNearer(sh: Shard)
    requires Conserves(sh) && sh.queue != [] && Ahead(sh.queue) > 0
    requires Ahead(sh.queue[1..]) == Ahead(sh.queue) - 1
    requires !sh.mode.Running? || sh.queue[0].Work?
    ensures Backlog(ServeShard(sh)) < Backlog(sh)
  {
    hide Tasks, Controls, Plain, Tokened, Ahead;
  }
}
