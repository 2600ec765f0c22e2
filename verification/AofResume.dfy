/**
 Logging goes on after a rewrite (lib/persist/aof.go `rewrite`, lib/commands/aof.go): a
 restart replays the dump and then the records of the commands that ran since.  The dump can
 give a set back in the other encoding, and then a text that wraps as an integer is not taken
 the same way on the two sides.  Commands that name exact texts cannot tell them apart.
 */
module AofResume {
  import opened Basics
  import opened Decimal
  import opened SetEncoding
  import opened Commands
  import opened AofCapture
  import opened AofRewrite

  ghost predicate SameOption(a: Option<Item>, b: Option<Item>) {
    if a.None? || b.None? then a == b else SameItem(a.value, b.value)
  }

  /** The same results: keys up to encoding, and replies. */
  ghost predicate SameResult(a: KeyResult, b: KeyResult) {
    SameOption(a.0, b.0) && a.1 == b.1
  }

  /** Both hold a set, or both hold the very same. */
  ghost predicate Twins(a: Option<Item>, b: Option<Item>) {
    SameOption(a, b) && (a == b || (a.Some? && b.Some? && a.value.value.Set? && b.value.value.Set?))
  }

  lemma SameAreTwins(a: Option<Item>, b: Option<Item>)
    requires SameOption(a, b)
    ensures Twins(a, b)
  {
  }

  // ------------------------------------------------------------------ set commands

  lemma SameAdd(ms: seq<string>, a: Option<Item>, b: Option<Item>)
    requires Twins(a, b) && AllExact(ms)
    ensures SameResult(SAddStep(ms, a), SAddStep(ms, b))
  {
    hide AddAll, AllExact, ToSet;
    if a != b {
      AddAllExact(a.value.value.e, ms);
      AddAllExact(b.value.value.e, ms);
    }
  }

  lemma SameRemove(ms: seq<string>, a: Option<Item>, b: Option<Item>)
    requires Twins(a, b) && AllExact(ms)
    ensures SameResult(SRemStep(ms, a), SRemStep(ms, b))
  {
    hide RemoveAll, AllExact, ToSet;
    if a != b {
      RemoveAllExact(a.value.value.e, ms);
      RemoveAllExact(b.value.value.e, ms);
    }
  }

  lemma SamePop(args: seq<string>, pick: seq<string>, a: Option<Item>, b: Option<Item>)
    requires Twins(a, b)
    ensures SameResult(SPopStep(args, pick, a), SPopStep(args, pick, b))
  {
    hide ParseInt64, ToSet;
  }

  // ----------------------------------------- the others do not look inside a set

  lemma SameSet(now: int, args: seq<string>, a: Option<Item>, b: Option<Item>)
    requires Twins(a, b)
    ensures SameResult(SetStep(now, args, a), SetStep(now, args, b))
    ensures SameResult(GetExStep(now, args, a), GetExStep(now, args, b))
  {
    hide ParseSet, ParseGetEx, Resolve, ParseInt64;
  }

  lemma SameExpire(now: int, u: Unit, args: seq<string>, a: Option<Item>, b: Option<Item>)
    requires Twins(a, b)
    ensures SameResult(ExpireStep(now, u, args, a), ExpireStep(now, u, args, b))
  {
    hide ParseFlags, ParseInt64, Deadline;
  }

  lemma SameList(head: bool, onlyIfExists: bool, args: seq<string>, a: Option<Item>, b: Option<Item>)
    requires Twins(a, b)
    ensures SameResult(PushStep(head, onlyIfExists, args, a), PushStep(head, onlyIfExists, args, b))
    ensures SameResult(PopStep(head, args, a), PopStep(head, args, b))
  {
    hide ParseInt64, Reverse;
  }

  lemma SameMaps(args: seq<string>, a: Option<Item>, b: Option<Item>)
    requires Twins(a, b)
    ensures SameResult(HSetStep(args, a), HSetStep(args, b)) && SameResult(ZAddStep(args, a), ZAddStep(args, b))
  {
    hide HSetStep, ZAddStep;
    if a == b {
      SameItself(HSetStep(args, a).0);
      SameItself(ZAddStep(args, a).0);
    } else {
      NoMap(args, a.value, b.value);
    }
  }

  /** Neither command looks inside a set. */
  lemma NoMap(args: seq<string>, i: Item, j: Item)
    requires i.value.Set? && j.value.Set?
    ensures HSetStep(args, Some(i)).0 == Some(i) && HSetStep(args, Some(i)).1 == HSetStep(args, Some(j)).1
    ensures HSetStep(args, Some(j)).0 == Some(j)
    ensures ZAddStep(args, Some(i)).0 == Some(i) && ZAddStep(args, Some(i)).1 == ZAddStep(args, Some(j)).1
    ensures ZAddStep(args, Some(j)).0 == Some(j)
  {
    hide Pairs, Scores;
  }

  lemma SameString(now: int, verb: Verb, args: seq<string>, a: Option<Item>, b: Option<Item>)
    requires Twins(a, b)
    ensures SameResult(StringStep(now, verb, args, a), StringStep(now, verb, args, b))
  {
    hide ParseInt64, FormatInt;
  }

  /** SADD and SREM name exact texts. */
  predicate NamesExact(c: Cmd) {
    (c.verb.SADD? || c.verb.SREM?) && c.args != [] ==> AllExact(c.args[1..])
  }

  lemma SameKey(now: int, verb: Verb, args: seq<string>, pick: seq<string>, a: Option<Item>, b: Option<Item>)
    requires SameOption(a, b) && (verb.SADD? || verb.SREM? ==> AllExact(args))
    ensures SameResult(KeyStep(now, verb, args, pick, a), KeyStep(now, verb, args, pick, b))
  {
    hide SetStep, GetExStep, ExpireStep, PushStep, PopStep, SAddStep, SRemStep, SPopStep, HSetStep, ZAddStep;
    hide StringStep, SameOption, AllExact;
    SameAreTwins(a, b);
    match verb
    case SET => SameSet(now, args, a, b);
    case GETEX => SameSet(now, args, a, b);
    case EXPIRE => SameExpire(now, Ex, args, a, b);
    case PEXPIRE => SameExpire(now, Px, args, a, b);
    case EXPIREAT => SameExpire(now, ExAt, args, a, b);
    case PEXPIREAT => SameExpire(now, PxAt, args, a, b);
    case LPUSH => SameList(true, false, args, a, b);
    case RPUSH => SameList(false, false, args, a, b);
    case LPUSHX => SameList(true, true, args, a, b);
    case RPUSHX => SameList(false, true, args, a, b);
    case LPOP => SameList(true, true, args, a, b);
    case RPOP => SameList(false, true, args, a, b);
    case SADD => SameAdd(args, a, b);
    case SREM => SameRemove(args, a, b);
    case SPOP => SamePop(args, pick, a, b);
    case HSET => SameMaps(args, a, b);
    case ZADD => SameMaps(args, a, b);
    case _ => SameString(now, verb, args, a, b);
  }

  // ------------------------------------------------------------------- whole keyspaces

  lemma SameAt(a: Keys, b: Keys, k: Slot)
    requires SameKeys(a, b)
    ensures SameOption(At(a, k), At(b, k))
  {
    hide SameItem;
  }

  lemma SamePut(a: Keys, b: Keys, k: Slot, x: Option<Item>, y: Option<Item>)
    requires SameKeys(a, b) && SameOption(x, y)
    ensures SameKeys(Put(a, k, x), Put(b, k, y))
  {
    hide SameItem;
  }

  lemma {:induction false} SameDel(a: Keys, b: Keys, db: nat, keys: seq<string>)
    requires SameKeys(a, b)
    ensures SameKeys(DelAll(a, db, keys).0, DelAll(b, db, keys).0) && DelAll(a, db, keys).1 == DelAll(b, db, keys).1
    decreases |keys|
  {
    hide SameItem;
    if keys != [] { SameDel(a - {Slot(db, keys[0])}, b - {Slot(db, keys[0])}, db, keys[1..]); }
  }

  lemma {:induction false} SameBPop(a: Keys, b: Keys, db: nat, head: bool, keys: seq<string>)
    requires SameKeys(a, b)
    ensures var x, y := BPop(a, db, head, keys), BPop(b, db, head, keys); SameKeys(x.0, y.0) && x.1 == y.1
    decreases |keys|
  {
    hide PopStep, Put, SameItem;
    if keys != [] {
      var k := Slot(db, keys[0]);
      SameBPop(a, b, db, head, keys[1..]);
      if k in a {
        SameAt(a, b, k);
        SameAreTwins(At(a, k), At(b, k));
        SameList(head, true, [], Some(a[k]), Some(b[k]));
        SamePut(a, b, k, PopStep(head, [], Some(a[k])).0, PopStep(head, [], Some(b[k])).0);
      }
    }
  }

  lemma SameMove(a: Keys, b: Keys, db: nat, src: string, dst: string, fromHead: bool, toHead: bool)
    requires SameKeys(a, b)
    ensures var x, y := Move(a, db, src, dst, fromHead, toHead), Move(b, db, src, dst, fromHead, toHead);
            SameKeys(x.0, y.0) && x.1 == y.1
  {
    hide PopStep, PushStep, Put;
    var s, d := Slot(db, src), Slot(db, dst);
    if s in a {
      SameAt(a, b, s);
      SameAt(a, b, d);
      SameAreTwins(At(a, d), At(b, d));
      var r := PopStep(fromHead, [], Some(a[s]));
      if r.1.Blob? {
        var x, y := PushStep(toHead, false, [r.1.b], At(a, d)).0, PushStep(toHead, false, [r.1.b], At(b, d)).0;
        SameList(toHead, false, [r.1.b], At(a, d), At(b, d));
        SamePut(a, b, d, x, y);
        SameItself(r.0);
        SamePut(Put(a, d, x), Put(b, d, y), s, r.0, r.0);
      }
    }
  }

  lemma SameItself(a: Option<Item>)
    ensures SameOption(a, a)
  {
  }

  lemma SameMoveArgs(a: Keys, b: Keys, db: nat, args: seq<string>)
    requires SameKeys(a, b)
    ensures SameKeys(MoveArgs(a, db, args).0, MoveArgs(b, db, args).0)
    ensures MoveArgs(a, db, args).1 == MoveArgs(b, db, args).1
  {
    hide WordOf, Move, SameKeys;
    if |args| >= 4 { SameMove(a, b, db, args[0], args[1], WordOf(args[2]).LEFT?, WordOf(args[3]).LEFT?); }
  }

  lemma SameOthers(a: Keys, b: Keys, db: nat)
    requires SameKeys(a, b)
    ensures SameKeys(OtherDBs(a, db), OtherDBs(b, db)) && SameKeys(map[], map[])
  {
    hide SameItem;
  }

  /** A command that names exact texts leaves the same keys, and replies the same, whatever
      the encodings of the sets. */
  lemma SameExec(now: int, db: nat, c: Cmd, a: Keys, b: Keys)
    requires SameKeys(a, b) && NamesExact(c)
    ensures SameKeys(Exec(now, db, c, a).0, Exec(now, db, c, b).0) && Exec(now, db, c, a).1 == Exec(now, db, c, b).1
  {
    hide AllExact, WordOf, BPop, Move, DelAll, MoveArgs, KeyStep, Put, SameKeys, OtherDBs;
    var args := c.args;
    match c.verb
    case FLUSHDB => SameOthers(a, b, db);
    case FLUSHALL => SameOthers(a, b, db);
    case DEL => SameDel(a, b, db, args);
    case BLPOP => if |args| >= 2 { SameBPop(a, b, db, true, args[..|args| - 1]); }
    case BRPOP => if |args| >= 2 { SameBPop(a, b, db, false, args[..|args| - 1]); }
    case LMOVE => SameMoveArgs(a, b, db, args);
    case BLMOVE => if |args| == 5 { SameMoveArgs(a, b, db, args[..4]); }
    case RPOPLPUSH => if |args| == 2 { SameMove(a, b, db, args[0], args[1], false, true); }
    case BRPOPLPUSH => if |args| == 3 { SameMove(a, b, db, args[0], args[1], false, true); }
    case _ => if args != [] { SameOneKey(now, db, c, a, b); }
  }

  lemma SameOneKey(now: int, db: nat, c: Cmd, a: Keys, b: Keys)
    requires SameKeys(a, b) && NamesExact(c) && OneKey(c.verb) && c.args != []
    ensures SameKeys(Exec(now, db, c, a).0, Exec(now, db, c, b).0) && Exec(now, db, c, a).1 == Exec(now, db, c, b).1
  {
    hide AllExact, KeyStep, Put, SameKeys, Exec;
    var k, args := Slot(db, c.args[0]), c.args[1..];
    OneKeyExec(now, db, c, a);
    OneKeyExec(now, db, c, b);
    SameAt(a, b, k);
    SameKey(now, c.verb, args, c.pick, At(a, k), At(b, k));
    SamePut(a, b, k, KeyStep(now, c.verb, args, c.pick, At(a, k)).0, KeyStep(now, c.verb, args, c.pick, At(b, k)).0);
  }

  predicate AllNameExact(cs: seq<Issued>) {
    forall i :: 0 <= i < |cs| ==> NamesExact(cs[i].cmd)
  }

  lemma {:induction false} SameRun(now: int, cs: seq<Issued>, a: Keys, b: Keys)
    requires SameKeys(a, b) && AllNameExact(cs)
    ensures SameKeys(RunAll(now, cs, a), RunAll(now, cs, b))
    decreases |cs|
  {
    hide Exec, SameKeys, NamesExact;
    if cs != [] {
      SameExec(now, cs[0].db, cs[0].cmd, a, b);
      SameRun(now, cs[1..], Exec(now, cs[0].db, cs[0].cmd, a).0, Exec(now, cs[0].db, cs[0].cmd, b).0);
    }
  }

  /** A rewrite, and then a safe run: the dump and the records after it rebuild the keyspace
      of the run, if every dumped set comes back and the records name exact texts. */
  lemma DumpThenLog(now: int, before: seq<Issued>, ds: seq<Dumped>, cs: seq<Issued>)
    requires 0 <= now < MAX64 && Walks(ds, RunAll(now, before, map[]))
    requires (forall i :: 0 <= i < |ds| ==> GoodDump(ds[i])) && AllComeBack(ds, now)
    requires AllSafe(now, cs, RunAll(now, before, map[]))
    requires AllNameExact(CaptureAll(now, cs, RunAll(now, before, map[])))
    ensures var log := CaptureAll(now, cs, RunAll(now, before, map[]));
            SameKeys(RunAll(now, DumpCmds(ds) + log, map[]), RunAll(now, before + cs, map[]))
  {
    hide RunAll, DumpCmds, GoodDump, SameKeys, AllComeBack, Walks, CaptureAll, AllSafe, AllNameExact, Live;
    var ks := RunAll(now, before, map[]);
    var log := CaptureAll(now, cs, ks);
    ReachableIsRebuilt(now, before, ds);
    RunAppend(now, DumpCmds(ds), log, map[]);
    RunAppend(now, before, cs, map[]);
    SameRun(now, log, RunAll(now, DumpCmds(ds), map[]), ks);
    NothingGood();
    RunGood(false, now, before, map[]);
    LogRebuildsKeyspace(now, cs, ks);
  }

  lemma NothingGood()
    ensures AllGood(map[], false)
    ensures forall now :: Live(map[], now)
  {
  }

  // ------------------------------------------------------------ and for other texts

  /** One text added to two sets with the same members, of which only the second holds
      integers: the members stay the same if and only if the text is exact or ends the
      second one's encoding. */
  lemma AddTellsApart(a: SetValue, b: SetValue, m: string)
    requires a.ms == b.ms && !a.isInt && b.isInt
    ensures AddOne(a, m).ms == AddOne(b, m).ms <==> Exact(m) || !StaysInt(b, m)
  {
    hide ParseInt64, FormatInt;
    if !Exact(m) && StaysInt(b, m) {
      assert !IsPrint(m);
      assert m !in b.ms;
      assert m in AddOne(a, m).ms;
    }
  }

  /** So a rewrite can be told from the log alone: a set that a word had promoted and that
      comes back as the set of r takes the text of 2^64 + r for a member it has. */
  lemma ReloadThenAddDiffers(r: nat, word: string)
    requires r < TWO63 && ParseInt64(word).None?
    ensures var had := RemoveOne(AddAll(FRESH, [word, FormatInt(r)]), word);
            var wrapped := Digits(r + TWO64);
            && had.ms == Reload([FormatInt(r)]).ms == {FormatInt(r)}
            && AddOne(had, wrapped).ms == {FormatInt(r), wrapped} && wrapped != FormatInt(r)
            && AddOne(Reload([FormatInt(r)]), wrapped).ms == {FormatInt(r)}
  {
    hide ParseInt64, FormatInt, Digits;
    var one := FormatInt(r);
    FormatIsPrint(r);
    WrappedIsInexact(r);
    WrappedFamily(r);
    TwoAdded(FRESH, word, one);
    OneAdded(FRESH, one);
    assert word != one;
    assert {word} + {one} - {word} == {one};
  }

  lemma OneAdded(e: SetValue, m: string)
    ensures AddAll(e, [m]) == AddOne(e, m)
  {
    hide AddOne;
    assert [m][1..] == [];
  }

  lemma TwoAdded(e: SetValue, x: string, y: string)
    ensures AddAll(e, [x, y]) == AddOne(AddOne(e, x), y)
  {
    hide AddOne;
    assert [x, y][1..] == [y];
    OneAdded(AddOne(e, x), y);
  }
}
