/**
 From commands to bytes and back (lib/persist/manager.go, aof.go, replay.go): what a
 restarted server rebuilds from the log files, after any run of commands whose records
 reached the logs in any order, and after a rewrite of the logs.
 */
module Recovery {
  import opened Basics
  import opened Decimal
  import opened Resp
  import opened Commands
  import opened AofCapture
  import opened AofRewrite
  import opened LaterReplay
  import opened AofLog
  import opened AofMerge

  /** The command table: how verbs are spelled in a record, and found again. */
  datatype Table = Table(name: Verb -> string, lookup: string -> Option<Verb>)

  ghost predicate Complete(t: Table) {
    forall v :: t.lookup(t.name(v)) == Some(v)
  }

  function Argv(t: Table, c: Cmd): seq<string> {
    [t.name(c.verb)] + c.args
  }

  /** `replayExec`: an unknown command is an error reply and changes nothing. */
  function ReplayRecord(t: Table, now: int, r: Rec, ks: Keys): Keys {
    if r.argv == [] || r.db < 0 then ks
    else
      var v := t.lookup(r.argv[0]);
      if v.None? then ks else Exec(now, r.db, Cmd(v.value, r.argv[1..], []), ks).0
  }

  function ReplayRecords(t: Table, now: int, rs: seq<Rec>, ks: Keys): Keys
    decreases |rs|
  {
    if rs == [] then ks else ReplayRecords(t, now, rs[1..], ReplayRecord(t, now, rs[0], ks))
  }

  /** The records carry exactly these commands, in order. */
  ghost predicate Carry(t: Table, rs: seq<Rec>, cs: seq<Issued>) {
    && |rs| == |cs|
    && forall i :: 0 <= i < |rs| ==> rs[i].db == cs[i].db && rs[i].argv == Argv(t, cs[i].cmd)
  }

  predicate NoDraws(cs: seq<Issued>) {
    forall i :: 0 <= i < |cs| ==> !cs[i].cmd.verb.SPOP?
  }

  /** Only SPOP looks at the draw. */
  lemma PickIsIgnored(now: int, db: nat, c: Cmd, ks: Keys)
    requires !c.verb.SPOP?
    ensures Exec(now, db, c.(pick := []), ks) == Exec(now, db, c, ks)
  {
    hide SetStep, GetExStep, ExpireStep, PushStep, PopStep, SAddStep, SRemStep, HSetStep, ZAddStep, StringStep;
    hide DelAll, BPop, Move, MoveArgs, Put, OtherDBs;
  }

  lemma {:induction false} CarriedReplay(t: Table, now: int, rs: seq<Rec>, cs: seq<Issued>, ks: Keys)
    requires Complete(t) && Carry(t, rs, cs) && NoDraws(cs)
    ensures ReplayRecords(t, now, rs, ks) == RunAll(now, cs, ks)
    decreases |rs|
  {
    hide Exec;
    if rs != [] {
      var r, c := rs[0], cs[0].cmd;
      assert r.argv[1..] == c.args && r.argv[0] == t.name(c.verb);
      PickIsIgnored(now, r.db, c, ks);
      assert c.(pick := []) == Cmd(c.verb, c.args, []);
      assert ReplayRecord(t, now, r, ks) == Exec(now, cs[0].db, c, ks).0;
      CarriedReplay(t, now, rs[1..], cs[1..], Exec(now, cs[0].db, c, ks).0);
    }
  }

  // ------------------------------------------------------ the log of a run of commands

  lemma CapturedIsNoDraw(now: int, db: nat, c: Cmd, ks: Keys)
    ensures var r := Capture(now, c, Exec(now, db, c, ks).1); r.Some? ==> !r.value.verb.SPOP?
  {
    hide KeyStep, DelAll, BPop, Move, MoveArgs, Put, OtherDBs, FormatInt, ParseInt64, RewriteTail, WordOf;
  }

  lemma {:induction false} CaptureHasNoDraws(now: int, cs: seq<Issued>, ks: Keys)
    ensures NoDraws(CaptureAll(now, cs, ks))
    decreases |cs|
  {
    hide Exec, Capture;
    if cs != [] {
      CapturedIsNoDraw(now, cs[0].db, cs[0].cmd, ks);
      CaptureHasNoDraws(now, cs[1..], Exec(now, cs[0].db, cs[0].cmd, ks).0);
    }
  }

  /** What a restarted server holds: the logs parsed, merged and executed. */
  function Restored(t: Table, now: int, files: seq<string>): Option<Keys> {
    var all := CollectFiles(files, []);
    if all.Recs? then Some(ReplayRecords(t, now, Replayed(all.recs), map[])) else None
  }

  /** Any safe run of commands, captured; the records numbered in capture order and
      written to n logs in any order, with any restarts between; once no write is
      outstanding, a restart at the same clock, or at a later one before which no deadline
      in the log has passed, rebuilds exactly the keyspace of the run. */
  lemma LogsRestoreTheRun(t: Table, now: int, later: int, cs: seq<Issued>, n: nat, es: seq<Event>)
    requires Complete(t) && 0 <= now < MAX64 && AllSafe(now, cs, map[])
    requires now <= later && NoneLapses(now, later, CaptureAll(now, cs, map[]))
    requires n > 0 && AllEnabled(Start(n), es)
    requires Run(Start(n), es).pending == {}
    requires Carry(t, Run(Start(n), es).issued, CaptureAll(now, cs, map[]))
    ensures Restored(t, later, Files(Run(Start(n), es).logs)) == Some(RunAll(now, cs, map[]))
  {
    hide Run, Start, AllEnabled, CaptureAll, RunAll, AllSafe, Carry, CollectFiles, Files, Replayed, ReplayRecords, Flat;
    hide NoneLapses;
    var s := Run(Start(n), es);
    ReplayIsTheHistory(n, es);
    CaptureHasNoDraws(now, cs, map[]);
    CarriedReplay(t, later, s.issued, CaptureAll(now, cs, map[]), map[]);
    LogRebuildsLater(now, later, cs, map[]);
  }

  // ------------------------------------------------------------------- rewritten logs

  /** Commands stamped with consecutive numbers above base. */
  function NumberFrom(t: Table, base: nat, cs: seq<Issued>): (rs: seq<Rec>)
    ensures |rs| == |cs|
    decreases |cs|
  {
    if cs == [] then []
    else [Rec(base + 1, cs[0].db, Argv(t, cs[0].cmd))] + NumberFrom(t, base + 1, cs[1..])
  }

  /** The records of the rewritten logs, shard after shard. */
  function ShardLogs(t: Table, base: nat, shards: seq<seq<Issued>>): seq<seq<Rec>>
    decreases |shards|
  {
    if shards == [] then []
    else [NumberFrom(t, base, shards[0])] + ShardLogs(t, base + |shards[0]|, shards[1..])
  }

  function Joined(shards: seq<seq<Issued>>): seq<Issued> {
    if shards == [] then [] else shards[0] + Joined(shards[1..])
  }

  /** The loops of `rewrite` over the shards and the commands of each dump; `num` is the
      sequence counter. */
  method RewriteFiles(t: Table, base: nat, shards: seq<seq<Issued>>) returns (files: seq<string>, num: nat)
    ensures files == Files(ShardLogs(t, base, shards)) && num == base + |Joined(shards)|
  {
    hide Array, Stamp, LogBytes, NumberFrom;
    files, num := [], base;
    var i := 0;
    while i < |shards|
      invariant 0 <= i <= |shards|
      invariant files + Files(ShardLogs(t, num, shards[i..])) == Files(ShardLogs(t, base, shards))
      invariant num + |Joined(shards[i..])| == base + |Joined(shards)|
    {
      assert shards[i..][1..] == shards[i + 1..];
      var out, before := DumpShard(t, num, shards[i]);
      files, num, i := files + [out], before, i + 1;
    }
  }

  /** The dump of one shard: bytes and the counter after it. */
  method DumpShard(t: Table, base: nat, cs: seq<Issued>) returns (out: string, num: nat)
    ensures out == LogBytes(NumberFrom(t, base, cs)) && num == base + |cs|
  {
    hide Array, Stamp;
    out, num := [], base;
    var i := 0;
    while i < |cs|
      invariant 0 <= i <= |cs| && num == base + i
      invariant out + LogBytes(NumberFrom(t, num, cs[i..])) == LogBytes(NumberFrom(t, base, cs))
    {
      ghost var rest := NumberFrom(t, num, cs[i..]);
      assert cs[i..][1..] == cs[i + 1..];
      assert rest[1..] == NumberFrom(t, num + 1, cs[i + 1..]);
      num := num + 1;
      out := out + Array(Stamp(Rec(num, cs[i].db, Argv(t, cs[i].cmd))));
      i := i + 1;
    }
  }

  lemma {:induction false} NumberJoin(t: Table, base: nat, a: seq<Issued>, b: seq<Issued>)
    ensures NumberFrom(t, base, a + b) == NumberFrom(t, base, a) + NumberFrom(t, base + |a|, b)
    decreases |a|
  {
    if a == [] {
      assert a + b == b;
    } else {
      assert (a + b)[1..] == a[1..] + b;
      NumberJoin(t, base + 1, a[1..], b);
    }
  }

  lemma {:induction false} LogsJoin(t: Table, base: nat, shards: seq<seq<Issued>>)
    ensures Flat(ShardLogs(t, base, shards)) == NumberFrom(t, base, Joined(shards))
    decreases |shards|
  {
    if shards != [] {
      LogsJoin(t, base + |shards[0]|, shards[1..]);
      NumberJoin(t, base, shards[0], Joined(shards[1..]));
      var logs := ShardLogs(t, base, shards);
      assert logs[1..] == ShardLogs(t, base + |shards[0]|, shards[1..]);
    }
  }

  lemma {:induction false} NumberFromAt(t: Table, base: nat, cs: seq<Issued>, i: nat)
    requires i < |cs|
    ensures NumberFrom(t, base, cs)[i] == Rec(base + 1 + i, cs[i].db, Argv(t, cs[i].cmd))
    decreases |cs|
  {
    if i > 0 { NumberFromAt(t, base + 1, cs[1..], i - 1); }
  }

  lemma NumberFromAscends(t: Table, base: nat, cs: seq<Issued>)
    ensures Ascending(NumberFrom(t, base, cs))
    ensures Carry(t, NumberFrom(t, base, cs), cs)
  {
    hide NumberFrom, Argv;
    forall i | 0 <= i < |cs| ensures NumberFrom(t, base, cs)[i] == Rec(base + 1 + i, cs[i].db, Argv(t, cs[i].cmd)) {
      NumberFromAt(t, base, cs, i);
    }
  }

  /** Logs already in order are replayed as they stand. */
  lemma AscendingReplay(rs: seq<Rec>)
    requires Ascending(rs)
    ensures Replayed(rs) == rs
  {
    hide Replayed;
    AscendingAgrees(rs, rs);
    ReplayIsExact(rs);
    AscendingIsUnique(Replayed(rs), rs);
  }

  lemma {:induction false} DumpHasNoDraw(ds: seq<Dumped>)
    requires forall i :: 0 <= i < |ds| ==> GoodDump(ds[i])
    ensures NoDraws(DumpCmds(ds))
  {
    hide GoodDump, StateArgs;
    if ds != [] { DumpHasNoDraw(ds[1..]); }
  }

  /** After a rewrite, a restart rebuilds exactly the entries that are overdue neither at
      the dump nor at the restart, each as it comes back: the entries there were if and
      only if every set among them comes back.  `shards` cuts the dump commands into the
      shards' logs. */
  lemma RewrittenLogsRestore(t: Table, ks: Keys, ds: seq<Dumped>, shards: seq<seq<Issued>>, base: nat,
                             dumpedAt: int, replayedAt: int)
    requires Complete(t) && Dumps(ds, ks, dumpedAt) && Joined(shards) == DumpCmds(ds)
    requires EachWritable(ShardLogs(t, base, shards))
    ensures Restored(t, replayedAt, Files(ShardLogs(t, base, shards)))
         == Some(Rebuilt(ds, replayedAt))
    ensures Rebuilt(ds, replayedAt).Keys == LivePart(ks, dumpedAt, replayedAt).Keys
    ensures SameKeys(Rebuilt(ds, replayedAt), LivePart(ks, dumpedAt, replayedAt)) <==> AllComeBack(ds, replayedAt)
  {
    hide RunAll, CollectFiles, Files, Replayed, ReplayRecords, Flat, DumpCmds, EachWritable, Ascending;
    hide GoodDump, Rebuilt;
    var logs, cs := ShardLogs(t, base, shards), DumpCmds(ds);
    FilesGiveRecords(logs, []);
    LogsJoin(t, base, shards);
    var rs := NumberFrom(t, base, cs);
    assert [] + Flat(logs) == rs;
    DumpHasNoDraw(ds);
    NumberFromAscends(t, base, cs);
    AscendingReplay(rs);
    CarriedReplay(t, replayedAt, rs, cs, map[]);
    RewriteRebuilds(ks, ds, dumpedAt, replayedAt);
  }
}
