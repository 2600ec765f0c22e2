/**
 EXEC under its pause (lib/commands/tx.go `cmdExec`, lib/shard/shard.go `PauseAll`, `park`):
 the dirty checks and the queued commands are token tasks that the holder sends to the
 shards one by one, among whatever the other connections submit meanwhile.  After each task
 the shard runs an eviction pass, inside the pause too.

 The first theorem joins the pause protocol and the transaction: such a run leaves in all
 shards what EXEC, with these passes, leaves when executed as one step on the data at the
 start of the hold.  The others say what the passes mean for the promise of WATCH: the queue
 runs on the state that was checked if and only if no checked shard could evict.
 */
module ExecPause {
  import opened Basics
  import opened Keyspace
  import opened Eviction
  import P = PauseProtocol
  import T = Transactions

  // ---------------------------------------------------------- a program of shard tasks

  /** A task of the pause holder: a shard and what it does to that shard's data. */
  datatype Job<!D> = Job(shard: nat, run: D -> D)

  /** One job and the pass after it, which is the k-th of the hold. */
  function RunJob<D>(job: Job<D>, pass: (nat, D) -> D, k: nat, e: seq<D>): (r: seq<D>)
    ensures |r| == |e|
  {
    if job.shard < |e| then e[job.shard := pass(k, job.run(e[job.shard]))] else e
  }

  /** The jobs one after the other, each on its shard and followed by its pass. */
  function RunJobs<D>(jobs: seq<Job<D>>, pass: (nat, D) -> D, k: nat, e: seq<D>): (r: seq<D>)
    ensures |r| == |e|
    decreases |jobs|
  {
    if jobs == [] then e else RunJobs(jobs[1..], pass, k + 1, RunJob(jobs[0], pass, k, e))
  }

  /** The tasks the holder sends to shard j, numbered from k. */
  function Sent<D>(jobs: seq<Job<D>>, k: nat, j: nat, tok: nat): seq<P.Task>
    decreases |jobs|
  {
    if jobs == [] then []
    else (if jobs[0].shard == j then [P.Task(k, tok)] else []) + Sent(jobs[1..], k + 1, j, tok)
  }

  /** Task number k + i of this pause does what job i says, and then its pass. */
  ghost predicate Performs<D(!new)>(effect: (D, P.Task) -> D, jobs: seq<Job<D>>, pass: (nat, D) -> D, k: nat,
                                    tok: nat) {
    forall i, d :: 0 <= i < |jobs| ==> effect(d, P.Task(k + i, tok)) == pass(k + i, jobs[i].run(d))
  }

  lemma PerformsTail<D(!new)>(effect: (D, P.Task) -> D, jobs: seq<Job<D>>, pass: (nat, D) -> D, k: nat, tok: nat)
    requires jobs != [] && Performs(effect, jobs, pass, k, tok)
    ensures Performs(effect, jobs[1..], pass, k + 1, tok)
    ensures forall d :: effect(d, P.Task(k, tok)) == pass(k, jobs[0].run(d))
  {
    var rest := jobs[1..];
    forall i, d | 0 <= i < |rest| ensures effect(d, P.Task(k + 1 + i, tok)) == pass(k + 1 + i, rest[i].run(d)) {
      assert effect(d, P.Task(k + (i + 1), tok)) == pass(k + (i + 1), jobs[i + 1].run(d));
    }
    forall d ensures effect(d, P.Task(k, tok)) == pass(k, jobs[0].run(d)) {
      assert effect(d, P.Task(k + 0, tok)) == pass(k + 0, jobs[0].run(d));
    }
  }

  /** Each shard's own tasks, in its own order, add up to the whole program. */
  lemma {:induction false} SharesAddUp<D(!new)>(effect: (D, P.Task) -> D, jobs: seq<Job<D>>, pass: (nat, D) -> D,
                                                k: nat, tok: nat, e: seq<D>, j: nat)
    requires Performs(effect, jobs, pass, k, tok) && j < |e|
    ensures P.Data(effect, e[j], Sent(jobs, k, j, tok)) == RunJobs(jobs, pass, k, e)[j]
    decreases |jobs|
  {
    hide P.Data, Performs;
    if jobs == [] {
      NoData(effect, e[j]);
    } else {
      var job, rest := jobs[0], Sent(jobs[1..], k + 1, j, tok);
      PerformsTail(effect, jobs, pass, k, tok);
      SharesAddUp(effect, jobs[1..], pass, k + 1, tok, RunJob(job, pass, k, e), j);
      if job.shard == j {
        P.DataJoin(effect, e[j], [P.Task(k, tok)], rest);
        OneDatum(effect, e[j], P.Task(k, tok));
      } else {
        assert [] + rest == rest;
      }
    }
  }

  lemma NoData<D>(effect: (D, P.Task) -> D, d: D)
    ensures P.Data(effect, d, []) == d
  {
  }

  lemma OneDatum<D>(effect: (D, P.Task) -> D, d: D, t: P.Task)
    ensures P.Data(effect, d, [t]) == effect(d, t)
  {
    assert [t][..0] == [];
  }

  /** What every shard has made of its data. */
  ghost predicate DataIs<D(!new)>(s: P.System, effect: (D, P.Task) -> D, start: seq<D>, e: seq<D>) {
    && |s.shards| == |start| == |e|
    && forall j :: 0 <= j < |e| ==> P.Data(effect, start[j], s.shards[j].ran) == e[j]
  }

  /** Between the two states the holder sent exactly the program, each job to its shard. */
  ghost predicate Submitted<D(!new)>(s: P.System, s': P.System, jobs: seq<Job<D>>) {
    && |s'.shards| == |s.shards|
    && forall j :: 0 <= j < |s.shards| ==>
         P.Tokened(s'.shards[j].submitted) == P.Tokened(s.shards[j].submitted) + Sent(jobs, 0, j, s.tok)
  }

  /** A program run under a pause, with any other traffic around it, is one step. */
  lemma ProgramIsOneStep<D(!new)>(s: P.System, es: seq<P.Event>, effect: (D, P.Task) -> D, start: seq<D>, e: seq<D>,
                                  jobs: seq<Job<D>>, pass: (nat, D) -> D)
    requires P.Inv(s) && P.CanRun(s, es) && P.StaysHeld(s, es)
    requires P.HolderIdle(s) && P.HolderIdle(P.After(s, es))
    requires Submitted(s, P.After(s, es), jobs) && Performs(effect, jobs, pass, 0, s.tok)
    requires DataIs(s, effect, start, e)
    ensures DataIs(P.After(s, es), effect, start, RunJobs(jobs, pass, 0, e))
  {
    hide P.Inv, P.CanRun, P.StaysHeld, P.HolderIdle, P.After, P.Data, P.Tokened, Sent, RunJobs, Performs;
    var s' := P.After(s, es);
    forall j | 0 <= j < |e| ensures P.Data(effect, start[j], s'.shards[j].ran) == RunJobs(jobs, pass, 0, e)[j] {
      P.HoldIsAtomic(s, es, j, effect, start[j]);
      var a, b, own := s.shards[j], s'.shards[j], Sent(jobs, 0, j, s.tok);
      assert P.Tokened(b.submitted)[|P.Tokened(a.submitted)|..] == own;
      SharesAddUp(effect, jobs, pass, 0, s.tok, e, j);
    }
  }

  // ------------------------------------------------------------------- EXEC as a program

  /** A queued command that works on one shard, with its reply. */
  datatype ShardCmd<!V, !R> = ShardCmd(shard: nat, run: State<V> -> (State<V>, R), missing: R)

  /** Such a command as a handler of the whole engine. */
  function Handle<V, R>(e: seq<State<V>>, cmd: ShardCmd<V, R>): (seq<State<V>>, R) {
    if cmd.shard < |e| then
      var (s, r) := cmd.run(e[cmd.shard]);
      (e[cmd.shard := s], r)
    else (e, cmd.missing)
  }

  predicate Fits<V>(s: State<V>, w: T.WatchRef) {
    w.slot.db < |s.epoch| == |s.used|
  }

  /** The check of one watched key on its shard. */
  function Check<V>(c: Config<V>, s: State<V>, now: int, w: T.WatchRef): (State<V>, bool) {
    if Fits(s, w) then T.WatchDirty(c, s, now, w) else (s, true)
  }

  function CheckJob<V>(c: Config<V>, now: int, w: T.WatchRef): Job<State<V>> {
    Job(w.shard, (s: State<V>) => Check(c, s, now, w).0)
  }

  function CommandJob<V, R>(cmd: ShardCmd<V, R>): Job<State<V>> {
    Job(cmd.shard, (s: State<V>) => cmd.run(s).0)
  }

  function CheckOn<V>(c: Config<V>, e: seq<State<V>>, now: int, w: T.WatchRef): bool {
    w.shard < |e| ==> Check(c, e[w.shard], now, w).1
  }

  /** The checks EXEC makes, from task k of the hold on: in order, up to the first dirty
      key. */
  function Checks<V>(c: Config<V>, e: seq<State<V>>, now: int, ws: seq<T.WatchRef>, pass: (nat, State<V>) -> State<V>,
                     k: nat): seq<Job<State<V>>>
    decreases |ws|
  {
    if ws == [] then []
    else
      var job := CheckJob(c, now, ws[0]);
      [job] + if CheckOn(c, e, now, ws[0]) then [] else Checks(c, RunJob(job, pass, k, e), now, ws[1..], pass, k + 1)
  }

  /** What they leave, and whether a key was dirty. */
  function Checked<V>(c: Config<V>, e: seq<State<V>>, now: int, ws: seq<T.WatchRef>, pass: (nat, State<V>) -> State<V>,
                      k: nat): (seq<State<V>>, bool)
    decreases |ws|
  {
    if ws == [] then (e, false)
    else
      var e' := RunJob(CheckJob(c, now, ws[0]), pass, k, e);
      if CheckOn(c, e, now, ws[0]) then (e', true) else Checked(c, e', now, ws[1..], pass, k + 1)
  }

  function Commands<V, R>(queue: seq<ShardCmd<V, R>>): seq<Job<State<V>>> {
    if queue == [] then [] else [CommandJob(queue[0])] + Commands(queue[1..])
  }

  /** The queue, with the pass after each command, and its replies. */
  function RunQueued<V, R>(e: seq<State<V>>, queue: seq<ShardCmd<V, R>>, pass: (nat, State<V>) -> State<V>, k: nat)
    : (seq<State<V>>, seq<R>)
    decreases |queue|
  {
    if queue == [] then (e, [])
    else
      var (e', rs) := RunQueued(RunJob(CommandJob(queue[0]), pass, k, e), queue[1..], pass, k + 1);
      (e', [Handle(e, queue[0]).1] + rs)
  }

  /** All that EXEC sends: the checks, and the queue if every key is clean. */
  function Program<V, R>(c: Config<V>, e: seq<State<V>>, now: int, ws: seq<T.WatchRef>, queue: seq<ShardCmd<V, R>>,
                         pass: (nat, State<V>) -> State<V>): seq<Job<State<V>>> {
    Checks(c, e, now, ws, pass, 0) + (if Checked(c, e, now, ws, pass, 0).1 then [] else Commands(queue))
  }

  lemma {:induction false} JobsJoin<D>(a: seq<Job<D>>, b: seq<Job<D>>, pass: (nat, D) -> D, k: nat, e: seq<D>)
    ensures RunJobs(a + b, pass, k, e) == RunJobs(b, pass, k + |a|, RunJobs(a, pass, k, e))
    decreases |a|
  {
    hide RunJob;
    if a == [] {
      assert a + b == b;
    } else {
      assert (a + b)[1..] == a[1..] + b;
      JobsJoin(a[1..], b, pass, k + 1, RunJob(a[0], pass, k, e));
    }
  }

  lemma {:induction false} ChecksRun<V>(c: Config<V>, e: seq<State<V>>, now: int, ws: seq<T.WatchRef>,
                                        pass: (nat, State<V>) -> State<V>, k: nat)
    ensures var jobs, r := Checks(c, e, now, ws, pass, k), Checked(c, e, now, ws, pass, k);
            RunJobs(jobs, pass, k, e) == r.0 && (!r.1 ==> |jobs| == |ws|)
    decreases |ws|
  {
    hide Check, RunJob, CheckOn, CheckJob;
    if ws != [] {
      var jobs, job := Checks(c, e, now, ws, pass, k), CheckJob(c, now, ws[0]);
      assert jobs[0] == job;
      if CheckOn(c, e, now, ws[0]) {
        assert jobs[1..] == [];
      } else {
        assert jobs[1..] == Checks(c, RunJob(job, pass, k, e), now, ws[1..], pass, k + 1);
        ChecksRun(c, RunJob(job, pass, k, e), now, ws[1..], pass, k + 1);
      }
    }
  }

  lemma {:induction false} CommandsRun<V, R>(queue: seq<ShardCmd<V, R>>, e: seq<State<V>>,
                                             pass: (nat, State<V>) -> State<V>, k: nat)
    ensures RunJobs(Commands(queue), pass, k, e) == RunQueued(e, queue, pass, k).0
    decreases |queue|
  {
    hide RunJob, CommandJob, Handle;
    if queue != [] {
      var jobs, job := Commands(queue), CommandJob(queue[0]);
      assert jobs[0] == job && jobs[1..] == Commands(queue[1..]);
      CommandsRun(queue[1..], RunJob(job, pass, k, e), pass, k + 1);
    }
  }

  lemma NoJobs<D>(pass: (nat, D) -> D, k: nat, e: seq<D>)
    ensures RunJobs([], pass, k, e) == e
  {
  }

  /** EXEC is one step.  The holder of a pause sends the program of EXEC for the state e of
      the engine at some moment of its hold, and `pass` names what was evicted after each of
      its tasks.  However the shards and the other connections interleave, once the holder
      waits for nothing the engine holds exactly what EXEC with these passes leaves of e:
      the outcome of the checks if a watched key is dirty, and else of the queue. */
  lemma ExecIsOneStep<V(!new), R>(s: P.System, es: seq<P.Event>, effect: (State<V>, P.Task) -> State<V>,
                                  start: seq<State<V>>, e: seq<State<V>>, c: Config<V>, now: int,
                                  ws: seq<T.WatchRef>, queue: seq<ShardCmd<V, R>>, pass: (nat, State<V>) -> State<V>)
    requires P.Inv(s) && P.CanRun(s, es) && P.StaysHeld(s, es)
    requires P.HolderIdle(s) && P.HolderIdle(P.After(s, es)) && DataIs(s, effect, start, e)
    requires Submitted(s, P.After(s, es), Program(c, e, now, ws, queue, pass))
    requires Performs(effect, Program(c, e, now, ws, queue, pass), pass, 0, s.tok)
    ensures var (checked, dirty) := Checked(c, e, now, ws, pass, 0);
            DataIs(P.After(s, es), effect, start,
                   if dirty then checked else RunQueued(checked, queue, pass, |ws|).0)
  {
    hide P.Inv, P.CanRun, P.StaysHeld, P.HolderIdle, P.After, DataIs, Submitted, Performs;
    hide Checked, RunQueued, Checks, Commands, RunJobs;
    ProgramIsOneStep(s, es, effect, start, e, Program(c, e, now, ws, queue, pass), pass);
    var (checked, dirty) := Checked(c, e, now, ws, pass, 0);
    ChecksRun(c, e, now, ws, pass, 0);
    var checks := Checks(c, e, now, ws, pass, 0);
    JobsJoin(checks, if dirty then [] else Commands(queue), pass, 0, e);
    CommandsRun(queue, checked, pass, |ws|);
    NoJobs(pass, |checks|, checked);
  }

  // ------------------------------------------------------------------- with no eviction

  /** `pass` is what passes may do when the k-th of the hold reads the limits lims(k). */
  ghost predicate Passes<V(!new)>(c: Config<V>, lims: nat -> Limits, pass: (nat, State<V>) -> State<V>) {
    && (forall k: nat, s :: Inv(s) ==> MayLeave(c, lims(k), s, pass(k, s)))
    && (forall k: nat, s :: !Presses(lims(k), s) ==> pass(k, s) == s)
  }

  lemma OffPasses<V(!new)>(c: Config<V>, lims: nat -> Limits, pass: (nat, State<V>) -> State<V>)
    requires Passes(c, lims, pass) && forall k: nat :: Off(lims(k))
    ensures forall k: nat, s :: pass(k, s) == s
  {
    forall k: nat, s ensures pass(k, s) == s {
      assert Off(lims(k)) && !Presses(lims(k), s);
    }
  }

  ghost predicate Idle<V(!new)>(pass: (nat, State<V>) -> State<V>) {
    forall k: nat, s :: pass(k, s) == s
  }

  lemma {:induction false} PlainChecks<V(!new)>(c: Config<V>, e: seq<State<V>>, now: int, ws: seq<T.WatchRef>,
                                                pass: (nat, State<V>) -> State<V>, k: nat)
    requires T.RefsOk(e, ws) && Idle(pass)
    ensures Checked(c, e, now, ws, pass, k) == T.CheckAll(c, e, now, ws)
    decreases |ws|
  {
    hide T.WatchDirty;
    if ws != [] {
      var w := ws[0];
      assert T.RefOk(e, w);
      var (s, dirty) := T.WatchDirty(c, e[w.shard], now, w);
      assert RunJob(CheckJob(c, now, w), pass, k, e) == e[w.shard := s];
      if !dirty {
        ShapeKept(e, ws, s);
        PlainChecks(c, e[w.shard := s], now, ws[1..], pass, k + 1);
      }
    }
  }

  lemma ShapeKept<V>(e: seq<State<V>>, ws: seq<T.WatchRef>, s: State<V>)
    requires T.RefsOk(e, ws) && ws != []
    requires var o := e[ws[0].shard]; |s.epoch| == |o.epoch| && |s.used| == |o.used|
    ensures T.RefsOk(e[ws[0].shard := s], ws[1..])
  {
    forall j | 0 <= j < |ws[1..]| ensures T.RefOk(e[ws[0].shard := s], ws[1..][j]) {
      assert T.RefOk(e, ws[j + 1]) && ws[1..][j] == ws[j + 1];
    }
  }

  lemma {:induction false} PlainQueue<V(!new), R>(e: seq<State<V>>, queue: seq<ShardCmd<V, R>>,
                                                  pass: (nat, State<V>) -> State<V>, k: nat)
    requires Idle(pass)
    ensures RunQueued(e, queue, pass, k) == T.RunQueue(e, queue, Handle<V, R>)
    decreases |queue|
  {
    if queue != [] {
      assert RunJob(CommandJob(queue[0]), pass, k, e) == Handle(e, queue[0]).0;
      PlainQueue(Handle(e, queue[0]).0, queue[1..], pass, k + 1);
    }
  }

  /** With maxmemory off or the policy noeviction, that is what EXEC leaves as one step: the
      outcome of the checks, or of the queue run on the state the checks left. */
  lemma ExecWithoutEviction<V(!new), R>(s: P.System, es: seq<P.Event>, effect: (State<V>, P.Task) -> State<V>,
                                        start: seq<State<V>>, e: seq<State<V>>, c: Config<V>, now: int,
                                        ws: seq<T.WatchRef>, queue: seq<ShardCmd<V, R>>, lims: nat -> Limits,
                                        pass: (nat, State<V>) -> State<V>)
    requires P.Inv(s) && P.CanRun(s, es) && P.StaysHeld(s, es)
    requires P.HolderIdle(s) && P.HolderIdle(P.After(s, es)) && DataIs(s, effect, start, e) && T.RefsOk(e, ws)
    requires Submitted(s, P.After(s, es), Program(c, e, now, ws, queue, pass))
    requires Performs(effect, Program(c, e, now, ws, queue, pass), pass, 0, s.tok)
    requires Passes(c, lims, pass) && forall k: nat :: Off(lims(k))
    ensures var (checked, dirty) := T.CheckAll(c, e, now, ws);
            DataIs(P.After(s, es), effect, start,
                   if dirty then checked else T.RunQueue(checked, queue, Handle<V, R>).0)
  {
    hide P.Inv, P.CanRun, P.StaysHeld, P.HolderIdle, P.After, DataIs, Submitted, Performs;
    hide Checked, RunQueued, Program, Passes, T.CheckAll, T.RefsOk, T.RunQueue;
    ExecIsOneStep(s, es, effect, start, e, c, now, ws, queue, pass);
    OffPasses(c, lims, pass);
    PlainChecks(c, e, now, ws, pass, 0);
    PlainQueue(T.CheckAll(c, e, now, ws).0, queue, pass, |ws|);
  }
}
