/**
 Replaying the append-only file at a later clock (lib/persist/replay.go, lib/commands/aof.go).
 A restart comes after the run.  The records carry absolute deadlines, and one that has
 passed in the meantime deletes its key at once, also where a later record of the run had
 taken the deadline away.
 */
module LaterReplay {
  import opened Basics
  import opened Decimal
  import opened Commands
  import opened AofCapture

  /** The options of SET, from its arguments after the key. */
  function SetOptionsOf(args: seq<string>): Option<SetOptions> {
    if args == [] then None
    else match ParseSet(args[1..], NO_OPTIONS) case Ok(o) => Some(o) case Fail(_) => None
  }

  /** As commands are logged: deadlines in absolute form. */
  predicate IsRecord(verb: Verb, args: seq<string>) {
    match verb
    case EXPIRE => false
    case PEXPIRE => false
    case EXPIREAT => false
    case GETEX => false
    case SET => var o := SetOptionsOf(args); o.Some? && o.value.unit.Some? ==> o.value.unit.value.PxAt?
    case _ => true
  }

  /** The deadline in the record. */
  function Written(verb: Verb, args: seq<string>): Option<int> {
    match verb
    case PEXPIREAT => if args == [] then None else ParseInt64(args[0])
    case SET =>
      var o := SetOptionsOf(args);
      if o.Some? && o.value.unit.Some? then Some(o.value.raw) else None
    case _ => None
  }

  /** The record writes a deadline that passes between the two clocks. */
  predicate Lapses(now: int, later: int, verb: Verb, args: seq<string>) {
    var at := Written(verb, args); at.Some? && now < at.value <= later
  }

  /** Neither the type of the key nor the record's own flags stand in its way. */
  predicate Applies(verb: Verb, args: seq<string>, cur: Option<Item>) {
    match verb
    case PEXPIREAT =>
      && cur.Some? && args != [] && ParseInt64(args[0]).Some?
      && (match ParseFlags(args[1..], Flags(false, false, false, false))
          case Fail(_) => false
          case Ok(f) => !Blocked(f, cur.value.at, ParseInt64(args[0]).value))
    case SET =>
      var o := SetOptionsOf(args);
      && o.Some? && !(o.value.get && !IsStr(cur))
      && !(o.value.nx && cur.Some?) && !(o.value.xx && cur.None?)
    case _ => true
  }

  lemma LaterSet(now: int, later: int, args: seq<string>, cur: Option<Item>)
    requires now <= later && IsRecord(SET, args)
    ensures KeyStep(later, SET, args, [], cur).0 == KeyStep(now, SET, args, [], cur).0 <==>
            !(Lapses(now, later, SET, args) && Applies(SET, args, cur))
  {
    hide ParseSet;
  }

  lemma LaterDeadline(now: int, later: int, args: seq<string>, cur: Option<Item>)
    requires now <= later
    ensures KeyStep(later, PEXPIREAT, args, [], cur).0 == KeyStep(now, PEXPIREAT, args, [], cur).0 <==>
            !(Lapses(now, later, PEXPIREAT, args) && Applies(PEXPIREAT, args, cur))
  {
    hide ParseInt64, ParseFlags, Blocked;
  }

  lemma LaterOther(now: int, later: int, verb: Verb, args: seq<string>, pick: seq<string>, cur: Option<Item>)
    requires IsRecord(verb, args) && !verb.SET? && !verb.PEXPIREAT?
    ensures KeyStep(later, verb, args, pick, cur).0 == KeyStep(now, verb, args, pick, cur).0
  {
    hide PushStep, PopStep, SAddStep, SRemStep, SPopStep, HSetStep, ZAddStep, TtlStep, IncrStep, IncrByStep;
    if verb == TTL || verb == PTTL {
      TtlKeeps(now, verb == PTTL, cur);
      TtlKeeps(later, verb == PTTL, cur);
    }
  }

  /** One record on one key: the later clock makes a difference if and only if the record
      applies and its deadline has passed in between. */
  lemma LaterKeyIff(now: int, later: int, verb: Verb, args: seq<string>, pick: seq<string>, cur: Option<Item>)
    requires now <= later && IsRecord(verb, args)
    ensures KeyStep(later, verb, args, pick, cur).0 == KeyStep(now, verb, args, pick, cur).0 <==>
            !(Lapses(now, later, verb, args) && Applies(verb, args, cur))
  {
    hide KeyStep, Lapses, Applies, IsRecord;
    match verb
    case SET => LaterSet(now, later, args, cur); PickSet(now, args, pick, cur); PickSet(later, args, pick, cur);
    case PEXPIREAT =>
      LaterDeadline(now, later, args, cur);
      PickSet(now, args, pick, cur);
      PickSet(later, args, pick, cur);
    case _ =>
      LaterOther(now, later, verb, args, pick, cur);
      OthersWriteNone(now, later, verb, args);
  }

  lemma PickSet(now: int, args: seq<string>, pick: seq<string>, cur: Option<Item>)
    ensures KeyStep(now, SET, args, pick, cur) == KeyStep(now, SET, args, [], cur)
    ensures KeyStep(now, PEXPIREAT, args, pick, cur) == KeyStep(now, PEXPIREAT, args, [], cur)
  {
    hide SetStep, ExpireStep;
  }

  lemma OthersWriteNone(now: int, later: int, verb: Verb, args: seq<string>)
    requires !verb.SET? && !verb.PEXPIREAT?
    ensures !Lapses(now, later, verb, args)
  {
  }

  // ---------------------------------------------------------------------- whole logs

  predicate Timeless(c: Cmd) {
    OneKey(c.verb) && c.args != [] ==> IsRecord(c.verb, c.args[1..])
  }

  /** The record is in absolute form, and no deadline in it passes between the clocks. */
  predicate Settled(now: int, later: int, c: Cmd) {
    Timeless(c) && (OneKey(c.verb) && c.args != [] ==> !Lapses(now, later, c.verb, c.args[1..]))
  }

  lemma LaterExec(now: int, later: int, db: nat, c: Cmd, ks: Keys)
    requires now <= later && Settled(now, later, c)
    ensures Exec(later, db, c, ks).0 == Exec(now, db, c, ks).0
  {
    hide KeyStep, DelAll, BPop, Move, MoveArgs, OtherDBs, IsRecord, Lapses, Applies, Put;
    if OneKey(c.verb) && c.args != [] {
      LaterKeyIff(now, later, c.verb, c.args[1..], c.pick, At(ks, Slot(db, c.args[0])));
    }
  }

  predicate AllSettled(now: int, later: int, cs: seq<Issued>) {
    forall i :: 0 <= i < |cs| ==> Settled(now, later, cs[i].cmd)
  }

  lemma {:induction false} LaterRun(now: int, later: int, cs: seq<Issued>, ks: Keys)
    requires now <= later && AllSettled(now, later, cs)
    ensures RunAll(later, cs, ks) == RunAll(now, cs, ks)
    decreases |cs|
  {
    hide Exec, Settled;
    if cs != [] {
      LaterExec(now, later, cs[0].db, cs[0].cmd, ks);
      assert forall i :: 0 <= i < |cs[1..]| ==> cs[1..][i] == cs[i + 1];
      LaterRun(now, later, cs[1..], Exec(now, cs[0].db, cs[0].cmd, ks).0);
    }
  }

  /** Every captured record has its deadlines in absolute form. */
  lemma CapturedIsRecord(now: int, db: nat, c: Cmd, ks: Keys)
    ensures var r := Capture(now, c, Exec(now, db, c, ks).1); r.Some? ==> Timeless(r.value)
  {
    hide IsRecord, KeyStep, DelAll, BPop, Move, MoveArgs, OtherDBs, Put, KeyRecord;
    forall args ensures IsRecord(LPOP, args) && IsRecord(RPOP, args) { PopsAreRecords(args); }
    if OneKey(c.verb) && c.args != [] {
      var args := c.args[1..];
      var reply := KeyStep(now, c.verb, args, c.pick, At(ks, Slot(db, c.args[0]))).1;
      OneKeyExec(now, db, c, ks);
      var rec := KeyRecord(now, c.verb, args, reply);
      if rec.Some? && !reply.Err? {
        KeyRecordIsRecord(now, c.verb, args, c.pick, At(ks, Slot(db, c.args[0])));
        assert ([c.args[0]] + rec.value.1)[1..] == rec.value.1;
      }
    }
  }

  lemma PopsAreRecords(args: seq<string>)
    ensures IsRecord(LPOP, args) && IsRecord(RPOP, args)
  {
  }

  lemma KeyRecordIsRecord(now: int, verb: Verb, args: seq<string>, pick: seq<string>, cur: Option<Item>)
    requires !KeyStep(now, verb, args, pick, cur).1.Err?
    ensures var r := KeyRecord(now, verb, args, KeyStep(now, verb, args, pick, cur).1);
            r.Some? ==> IsRecord(r.value.0, r.value.1)
  {
    hide RewriteTail, AbsMs, FormatInt, ParseInt64, KeyStep, SetOptionsOf;
    if verb.SET? { SetRecord(now, args, pick, cur); }
  }

  lemma SetRecord(now: int, args: seq<string>, pick: seq<string>, cur: Option<Item>)
    requires !KeyStep(now, SET, args, pick, cur).1.Err?
    ensures args != [] && IsRecord(SET, args[..1] + RewriteTail(now, args[1..]))
  {
    hide RewriteTail, ParseSet, AllPositive;
    assert !SetStep(now, args, cur).1.Err?;
    SetRuns(now, args, cur);
    RewriteParses(now, args[1..], NO_OPTIONS);
    var all := args[..1] + RewriteTail(now, args[1..]);
    assert all[1..] == RewriteTail(now, args[1..]);
    assert Absolute(now, NO_OPTIONS) == NO_OPTIONS;
  }

  lemma {:induction false} CaptureIsTimeless(now: int, cs: seq<Issued>, ks: Keys)
    ensures forall i :: 0 <= i < |CaptureAll(now, cs, ks)| ==> Timeless(CaptureAll(now, cs, ks)[i].cmd)
    decreases |cs|
  {
    hide Exec, Capture, Timeless;
    if cs != [] {
      CapturedIsRecord(now, cs[0].db, cs[0].cmd, ks);
      CaptureIsTimeless(now, cs[1..], Exec(now, cs[0].db, cs[0].cmd, ks).0);
    }
  }

  /** No deadline written in the log passes between the two clocks. */
  predicate NoneLapses(now: int, later: int, cs: seq<Issued>) {
    forall i :: 0 <= i < |cs| && OneKey(cs[i].cmd.verb) && cs[i].cmd.args != [] ==>
      !Lapses(now, later, cs[i].cmd.verb, cs[i].cmd.args[1..])
  }

  /** A safe run, replayed later: the log rebuilds the keyspace of the run unless a deadline
      written in it has passed in the meantime. */
  lemma LogRebuildsLater(now: int, later: int, cs: seq<Issued>, ks: Keys)
    requires 0 <= now < MAX64 && now <= later && Live(ks, now) && AllSafe(now, cs, ks)
    requires NoneLapses(now, later, CaptureAll(now, cs, ks))
    ensures RunAll(later, CaptureAll(now, cs, ks), ks) == RunAll(now, cs, ks)
  {
    hide RunAll, CaptureAll, Live, AllSafe, Lapses, IsRecord;
    var log := CaptureAll(now, cs, ks);
    CaptureIsTimeless(now, cs, ks);
    forall i | 0 <= i < |log| ensures Settled(now, later, log[i].cmd) {
      assert Timeless(log[i].cmd);
    }
    LaterRun(now, later, log, ks);
    LogRebuildsKeyspace(now, cs, ks);
  }

  /** And it can lose a key that way: SET with a deadline, taken away by PERSIST before it
      passed, replayed after it. */
  lemma PersistedKeyIsLost(now: int, later: int, at: int, v: string)
    requires 0 <= now < at <= later && at <= MAX64
    ensures var set_ := KeyStep(now, PEXPIREAT, [FormatInt(at)], [], Some(Item(Str(v), 0))).0;
            && KeyStep(now, PERSIST, [], [], set_).0 == Some(Item(Str(v), 0))
            && KeyStep(later, PEXPIREAT, [FormatInt(at)], [], Some(Item(Str(v), 0))).0 == None
            && KeyStep(later, PERSIST, [], [], None).0 == None
  {
    hide ParseInt64, FormatInt, WordOf;
    ParseOfFormat(at);
    assert [FormatInt(at)][1..] == [];
  }
}
