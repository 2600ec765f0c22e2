/**
 The rewrite of the append-only file (lib/persist/aof.go `rewrite`, `aofStateArgvs`): one
 command per live entry, and PEXPIREAT for its deadline.  Replaying the dump from an
 empty keyspace rebuilds it, whatever the order of keys and of set, hash and sorted-set
 members in the dump, but for one thing: a set gets its members back one by one, and a
 text that wraps as an integer may come back as another.  The exact condition is proved.
 */
module AofRewrite {
  import opened Basics
  import opened Decimal
  import opened SetEncoding
  import opened Commands
  import opened AofCapture

  /** An entry as the dump walks over it; `order` is the walk over the members of a set,
      the fields of a hash or the members of a sorted set. */
  datatype Dumped = Dumped(slot: Slot, item: Item, order: seq<string>)

  /** Values the keyspace can hold: no empty collection, scores and deadlines of 64 bits. */
  predicate Storable(i: Item) {
    && 0 <= i.at <= MAX64
    && match i.value
       case Str(_) => true
       case List(xs) => xs != []
       case Set(e) => e.ms != {}
       case Hash(fs) => fs.Keys != {}
       case ZSet(zs) => zs.Keys != {} && forall m :: m in zs ==> IsInt64(zs[m])
  }

  /** The members that `order` must walk over. */
  function Members(v: Value): set<string> {
    match v
    case Set(e) => e.ms
    case Hash(fs) => fs.Keys
    case ZSet(zs) => zs.Keys
    case _ => {}
  }

  /** The walk visits every member once. */
  predicate Ordered(d: Dumped) {
    NoRepeats(d.order) && ToSet(d.order) == Members(d.item.value)
  }

  predicate GoodDump(d: Dumped) {
    Storable(d.item) && Ordered(d)
  }

  /** What a value comes back as: a set is filled again in the order of the walk. */
  function ReloadedValue(v: Value, order: seq<string>): Value {
    if v.Set? then Set(Reload(order)) else v
  }

  function Reloaded(d: Dumped): Item {
    d.item.(value := ReloadedValue(d.item.value, d.order))
  }

  /** The same value: for a set, the same members in either encoding. */
  predicate SameValue(a: Value, b: Value) {
    if a.Set? && b.Set? then a.e.ms == b.e.ms else a == b
  }

  predicate SameItem(a: Item, b: Item) {
    SameValue(a.value, b.value) && a.at == b.at
  }

  ghost predicate SameKeys(a: Keys, b: Keys) {
    a.Keys == b.Keys && forall k :: k in a && k in b ==> SameItem(a[k], b[k])
  }

  /** Every member of the set that wraps comes when the set no longer holds integers. */
  predicate ComesBack(d: Dumped) {
    d.item.value.Set? ==> ReloadsWell(d.order)
  }

  /** An entry comes back the same if and only if it does. */
  lemma ComesBackIff(d: Dumped)
    requires Ordered(d)
    ensures SameItem(Reloaded(d), d.item) <==> ComesBack(d)
  {
    hide Reload, ReloadsWell;
    if d.item.value.Set? { ReloadIsExact(d.order); }
  }

  function FieldArgs(fs: map<string, string>, order: seq<string>): (r: seq<string>)
    requires ToSet(order) <= fs.Keys
    ensures |r| == 2 * |order|
  {
    if order == [] then []
    else
      var f := order[|order| - 1];
      assert f in ToSet(order);
      FieldArgs(fs, order[..|order| - 1]) + [f, fs[f]]
  }

  function ScoreArgs(zs: map<string, int>, order: seq<string>): (r: seq<string>)
    requires ToSet(order) <= zs.Keys
    ensures |r| == 2 * |order|
  {
    if order == [] then []
    else
      var m := order[|order| - 1];
      assert m in ToSet(order);
      ScoreArgs(zs, order[..|order| - 1]) + [FormatInt(zs[m]), m]
  }

  function StateVerb(v: Value): Verb {
    match v
    case Str(_) => SET case List(_) => RPUSH case Set(_) => SADD case Hash(_) => HSET case ZSet(_) => ZADD
  }

  function StateArgs(v: Value, order: seq<string>): seq<string>
    requires ToSet(order) == Members(v)
  {
    match v
    case Str(s) => [s]
    case List(xs) => xs
    case Set(_) => order
    case Hash(fs) => FieldArgs(fs, order)
    case ZSet(zs) => ScoreArgs(zs, order)
  }

  /** `aofStateArgvs`. */
  function StateCmds(d: Dumped): seq<Issued>
    requires GoodDump(d)
  {
    var state := Issued(d.slot.db, Cmd(StateVerb(d.item.value), [d.slot.key] + StateArgs(d.item.value, d.order), []));
    if d.item.at > 0 then
      [state, Issued(d.slot.db, Cmd(PEXPIREAT, [d.slot.key, FormatInt(d.item.at)], []))]
    else [state]
  }

  // --------------------------------------------------------------- one entry replayed

  function Restrict<V>(m: map<string, V>, ks: set<string>): map<string, V> {
    map k | k in m && k in ks :: m[k]
  }

  lemma RestrictSnoc<V>(m: map<string, V>, ks: set<string>, k: string)
    requires k in m
    ensures Restrict(m, ks + {k}) == Restrict(m, ks)[k := m[k]]
  {
  }

  lemma MergeIntoNothing<V>(m: map<string, V>)
    ensures map[] + Restrict(m, m.Keys) == m
  {
  }

  /** Written as arguments and read back, the fields are the ones walked over. */
  lemma {:induction false} PairsOfFields(fs: map<string, string>, order: seq<string>)
    requires ToSet(order) <= fs.Keys
    ensures Pairs(FieldArgs(fs, order)) == Restrict(fs, ToSet(order))
    decreases |order|
  {
    if order != [] {
      var args, front, f := FieldArgs(fs, order), order[..|order| - 1], order[|order| - 1];
      ToSetSnoc(order);
      PairsOfFields(fs, front);
      assert f in ToSet(order);
      RestrictSnoc(fs, ToSet(front), f);
      assert args[..|args| - 2] == FieldArgs(fs, front);
    }
  }

  lemma ScoresSnoc(args: seq<string>, score: string, m: string)
    requires Scores(args).Some? && ParseInt64(score).Some?
    ensures Scores(args + [score, m]) == Some(Scores(args).value[m := ParseInt64(score).value])
  {
    hide ParseInt64;
    var all := args + [score, m];
    assert all[..|all| - 2] == args;
  }

  lemma {:induction false} ScoresOfArgs(zs: map<string, int>, order: seq<string>)
    requires ToSet(order) <= zs.Keys && forall m :: m in zs ==> IsInt64(zs[m])
    ensures Scores(ScoreArgs(zs, order)) == Some(Restrict(zs, ToSet(order)))
    decreases |order|
  {
    hide ParseInt64, FormatInt;
    if order == [] {
      assert Restrict(zs, ToSet(order)) == map[];
    } else {
      hide Restrict, Scores, ToSet;
      var front, m := order[..|order| - 1], order[|order| - 1];
      ToSetSnoc(order);
      assert m in ToSet(order);
      ScoresOfArgs(zs, front);
      ParseOfFormat(zs[m]);
      ScoresSnoc(ScoreArgs(zs, front), FormatInt(zs[m]), m);
      RestrictSnoc(zs, ToSet(front), m);
    }
  }

  lemma NotEmptyOrder(order: seq<string>)
    requires ToSet(order) != {}
    ensures |order| >= 1
  {
  }

  lemma StringReplay(now: int, s: string)
    ensures KeyStep(now, SET, [s], [], None).0 == Some(Item(Str(s), 0))
  {
    hide ParseInt64, WordOf;
    assert [s][1..] == [];
  }

  lemma FreshHash(args: seq<string>, fs: map<string, string>)
    requires |args| >= 2 && |args| % 2 == 0 && map[] + Pairs(args) == fs
    ensures HSetStep(args, None).0 == Some(Item(Hash(fs), 0))
  {
    hide Pairs;
  }

  lemma FreshZSet(args: seq<string>, zs: map<string, int>)
    requires |args| >= 2 && |args| % 2 == 0 && Scores(args).Some? && map[] + Scores(args).value == zs
    ensures ZAddStep(args, None).0 == Some(Item(ZSet(zs), 0))
  {
    hide Scores;
  }

  lemma HashReplay(fs: map<string, string>, order: seq<string>)
    requires fs.Keys != {} && ToSet(order) == fs.Keys
    ensures HSetStep(FieldArgs(fs, order), None).0 == Some(Item(Hash(fs), 0))
  {
    hide Pairs, FieldArgs, ToSet, Restrict, HSetStep;
    var args := FieldArgs(fs, order);
    NotEmptyOrder(order);
    PairsOfFields(fs, order);
    MergeIntoNothing(fs);
    FreshHash(args, fs);
  }

  lemma ZSetReplay(zs: map<string, int>, order: seq<string>)
    requires zs.Keys != {} && ToSet(order) == zs.Keys && forall m :: m in zs ==> IsInt64(zs[m])
    ensures ZAddStep(ScoreArgs(zs, order), None).0 == Some(Item(ZSet(zs), 0))
  {
    hide Scores, ScoreArgs, ToSet, Restrict, ZAddStep;
    var args := ScoreArgs(zs, order);
    NotEmptyOrder(order);
    ScoresOfArgs(zs, order);
    MergeIntoNothing(zs);
    FreshZSet(args, zs);
  }

  /** The state command makes the value, on a key that is not there: exactly, but for the
      refilling of a set. */
  lemma StateReplay(now: int, v: Value, order: seq<string>)
    requires Storable(Item(v, 0)) && ToSet(order) == Members(v)
    ensures KeyStep(now, StateVerb(v), StateArgs(v, order), [], None).0 == Some(Item(ReloadedValue(v, order), 0))
  {
    hide SetStep, HSetStep, ZAddStep, FieldArgs, ScoreArgs, AddAll;
    match v
    case Str(s) => StringReplay(now, s);
    case List(xs) => assert [] + xs == xs;
    case Set(_) => NotEmptyOrder(order);
    case Hash(fs) => HashReplay(fs, order);
    case ZSet(zs) => ZSetReplay(zs, order);
  }

  lemma DeadlineReplay(now: int, v: Value, at: int)
    requires 0 < at <= MAX64
    ensures KeyStep(now, PEXPIREAT, [FormatInt(at)], [], Some(Item(v, 0))).0
         == if at <= now then None else Some(Item(v, at))
  {
    hide ParseInt64, FormatInt, WordOf;
    ParseOfFormat(at);
    assert [FormatInt(at)][1..] == [];
  }

  /** Not overdue, as the dump and the load test it. */
  predicate Alive(i: Item, now: int) {
    !(0 < i.at <= now)
  }

  /** The commands of one entry add the entry as it comes back, or nothing when it is
      overdue. */
  lemma EntryReplay(now: int, d: Dumped, ks: Keys)
    requires GoodDump(d) && d.slot !in ks
    ensures RunAll(now, StateCmds(d), ks) == if Alive(d.item, now) then ks[d.slot := Reloaded(d)] else ks
  {
    hide ReloadedValue, KeyStep, StateArgs, StateVerb, FormatInt, RunAll, Exec;
    var v, at, key, db := d.item.value, d.item.at, d.slot.key, d.slot.db;
    var args := StateArgs(v, d.order);
    StateReplay(now, v, d.order);
    assert ([key] + args)[1..] == args;
    OneKeyVerb(v);
    var first := Cmd(StateVerb(v), [key] + args, []);
    OneKeyExec(now, db, first, ks);
    RunOne(now, Issued(db, first), ks);
    if at > 0 {
      var w := ReloadedValue(v, d.order);
      var mid, second := ks[d.slot := Item(w, 0)], Cmd(PEXPIREAT, [key, FormatInt(at)], []);
      assert StateCmds(d) == [Issued(db, first)] + [Issued(db, second)];
      RunAppend(now, [Issued(db, first)], [Issued(db, second)], ks);
      assert [key, FormatInt(at)][1..] == [FormatInt(at)];
      DeadlineReplay(now, w, at);
      OneKeyExec(now, db, second, mid);
      RunOne(now, Issued(db, second), mid);
      assert mid - {d.slot} == ks && mid[d.slot := Reloaded(d)] == ks[d.slot := Reloaded(d)];
    }
  }

  lemma RunOne(now: int, c: Issued, ks: Keys)
    ensures RunAll(now, [c], ks) == Exec(now, c.db, c.cmd, ks).0
  {
    hide Exec;
    assert [c][1..] == [];
  }

  lemma OneKeyVerb(v: Value)
    ensures OneKey(StateVerb(v))
  {
  }

  // ------------------------------------------------------------------- the whole dump

  function DumpCmds(ds: seq<Dumped>): seq<Issued>
    requires forall i :: 0 <= i < |ds| ==> GoodDump(ds[i])
  {
    if ds == [] then [] else StateCmds(ds[0]) + DumpCmds(ds[1..])
  }

  lemma {:induction false} RunAppend(now: int, a: seq<Issued>, b: seq<Issued>, ks: Keys)
    ensures RunAll(now, a + b, ks) == RunAll(now, b, RunAll(now, a, ks))
    decreases |a|
  {
    hide Exec;
    if a == [] {
      assert a + b == b;
    } else {
      assert (a + b)[1..] == a[1..] + b;
      RunAppend(now, a[1..], b, Exec(now, a[0].db, a[0].cmd, ks).0);
    }
  }

  ghost predicate Distinct(ds: seq<Dumped>) {
    forall i, j :: 0 <= i < j < |ds| ==> ds[i].slot != ds[j].slot
  }

  /** The entries of the dump that are not overdue. */
  function Rebuilt(ds: seq<Dumped>, now: int): Keys {
    if ds == [] then map[]
    else
      var rest := Rebuilt(ds[1..], now);
      if Alive(ds[0].item, now) then rest[ds[0].slot := Reloaded(ds[0])] else rest
  }

  lemma {:induction false} RebuiltSlots(ds: seq<Dumped>, now: int, k: Slot)
    requires Distinct(ds)
    ensures k in Rebuilt(ds, now) <==>
            exists i :: 0 <= i < |ds| && ds[i].slot == k && Alive(ds[i].item, now)
    ensures forall i :: 0 <= i < |ds| && ds[i].slot == k && k in Rebuilt(ds, now) ==>
              Rebuilt(ds, now)[k] == Reloaded(ds[i])
  {
    hide Reloaded;
    if ds != [] {
      RebuiltSlots(ds[1..], now, k);
      if i :| 0 <= i < |ds| && ds[i].slot == k && Alive(ds[i].item, now) {
        if i > 0 { assert ds[1..][i - 1] == ds[i]; }
      }
      if i :| 0 <= i < |ds[1..]| && ds[1..][i].slot == k && Alive(ds[1..][i].item, now) {
        assert ds[i + 1].slot == k;
      }
      forall i | 0 <= i < |ds| && ds[i].slot == k && k in Rebuilt(ds, now)
        ensures Rebuilt(ds, now)[k] == Reloaded(ds[i]) {
        if i > 0 { assert ds[1..][i - 1] == ds[i] && ds[0].slot != ds[i].slot; }
      }
    }
  }

  lemma {:induction false} DumpReplay(now: int, ds: seq<Dumped>, ks: Keys)
    requires Distinct(ds) && forall i :: 0 <= i < |ds| ==> GoodDump(ds[i]) && ds[i].slot !in ks
    ensures RunAll(now, DumpCmds(ds), ks) == ks + Rebuilt(ds, now)
    decreases |ds|
  {
    hide StateCmds, RunAll, GoodDump, Alive, Reloaded;
    if ds == [] {
      assert RunAll(now, [], ks) == ks by { RunNone(now, ks); }
      assert ks + map[] == ks;
    } else {
      var d, rest := ds[0], ds[1..];
      EntryReplay(now, d, ks);
      RunAppend(now, StateCmds(d), DumpCmds(rest), ks);
      var mid := if Alive(d.item, now) then ks[d.slot := Reloaded(d)] else ks;
      assert forall i :: 0 <= i < |rest| ==> rest[i] == ds[i + 1];
      DumpReplay(now, rest, mid);
      RebuiltSlots(rest, now, d.slot);
      assert mid + Rebuilt(rest, now) == ks + Rebuilt(ds, now);
    }
  }

  lemma RunNone(now: int, ks: Keys)
    ensures RunAll(now, [], ks) == ks
  {
  }

  /** `ds` walks over exactly the entries of ks that are not overdue at the dump. */
  ghost predicate Dumps(ds: seq<Dumped>, ks: Keys, now: int) {
    && Distinct(ds)
    && (forall i :: 0 <= i < |ds| ==>
         GoodDump(ds[i]) && ds[i].slot in ks && ks[ds[i].slot] == ds[i].item && Alive(ds[i].item, now))
    && (forall k :: k in ks && Alive(ks[k], now) ==> exists i :: 0 <= i < |ds| && ds[i].slot == k)
  }

  /** The entries that are overdue at neither moment. */
  function LivePart(ks: Keys, a: int, b: int): Keys {
    map k | k in ks && Alive(ks[k], a) && Alive(ks[k], b) :: ks[k]
  }

  /** Every dumped set that is still to be replayed comes back. */
  predicate AllComeBack(ds: seq<Dumped>, now: int) {
    forall i :: 0 <= i < |ds| && Alive(ds[i].item, now) ==> ComesBack(ds[i])
  }

  lemma RebuiltKeys(ks: Keys, ds: seq<Dumped>, dumpedAt: int, replayedAt: int)
    requires Dumps(ds, ks, dumpedAt)
    ensures Rebuilt(ds, replayedAt).Keys == LivePart(ks, dumpedAt, replayedAt).Keys
  {
    hide GoodDump, Rebuilt, Alive;
    var got, want := Rebuilt(ds, replayedAt), LivePart(ks, dumpedAt, replayedAt);
    forall k ensures k in got <==> k in want {
      RebuiltSlots(ds, replayedAt, k);
      if k in want {
        var i :| 0 <= i < |ds| && ds[i].slot == k;
      }
    }
  }

  lemma RebuiltSame(ks: Keys, ds: seq<Dumped>, dumpedAt: int, replayedAt: int)
    requires Dumps(ds, ks, dumpedAt)
    ensures SameKeys(Rebuilt(ds, replayedAt), LivePart(ks, dumpedAt, replayedAt)) <==> AllComeBack(ds, replayedAt)
  {
    hide Storable, Ordered, Rebuilt, Alive, Reloaded, SameItem, ComesBack;
    var got, want := Rebuilt(ds, replayedAt), LivePart(ks, dumpedAt, replayedAt);
    RebuiltKeys(ks, ds, dumpedAt, replayedAt);
    forall i | 0 <= i < |ds| && Alive(ds[i].item, replayedAt)
      ensures ds[i].slot in got && ds[i].slot in want
      ensures SameItem(got[ds[i].slot], want[ds[i].slot]) <==> ComesBack(ds[i])
    {
      RebuiltSlots(ds, replayedAt, ds[i].slot);
      ComesBackIff(ds[i]);
    }
    if AllComeBack(ds, replayedAt) {
      forall k | k in got && k in want ensures SameItem(got[k], want[k]) {
        RebuiltSlots(ds, replayedAt, k);
        var i :| 0 <= i < |ds| && ds[i].slot == k && Alive(ds[i].item, replayedAt);
      }
    }
  }

  /** Replaying the rewritten log at any later or earlier clock gives exactly the entries
      that are overdue neither at the dump nor at the replay, each as it comes back; and
      these are the entries there were (values, list order, set members, scores and
      deadlines) if and only if every set among them comes back. */
  lemma RewriteRebuilds(ks: Keys, ds: seq<Dumped>, dumpedAt: int, replayedAt: int)
    requires Dumps(ds, ks, dumpedAt)
    ensures RunAll(replayedAt, DumpCmds(ds), map[]) == Rebuilt(ds, replayedAt)
    ensures Rebuilt(ds, replayedAt).Keys == LivePart(ks, dumpedAt, replayedAt).Keys
    ensures SameKeys(Rebuilt(ds, replayedAt), LivePart(ks, dumpedAt, replayedAt)) <==> AllComeBack(ds, replayedAt)
  {
    hide RunAll, DumpCmds, GoodDump, Rebuilt, Alive;
    DumpReplay(replayedAt, ds, map[]);
    assert map[] + Rebuilt(ds, replayedAt) == Rebuilt(ds, replayedAt);
    RebuiltKeys(ks, ds, dumpedAt, replayedAt);
    RebuiltSame(ks, ds, dumpedAt, replayedAt);
  }

  // --------------------------------------- every reachable keyspace can be dumped

  /** A set of exact texts. */
  predicate ExactItem(i: Item) {
    i.value.Set? ==> forall m :: m in i.value.e.ms ==> Exact(m)
  }

  /** No empty collection and no score out of range; if asked for, only exact members. */
  predicate GoodItem(i: Item, exact: bool) {
    Storable(i.(at := 0)) && (exact ==> ExactItem(i))
  }

  predicate GoodOption(o: Option<Item>, exact: bool) {
    o.Some? ==> GoodItem(o.value, exact)
  }

  lemma PushGood(exact: bool, head: bool, onlyIfExists: bool, vs: seq<string>, cur: Option<Item>)
    requires GoodOption(cur, exact)
    ensures GoodOption(PushStep(head, onlyIfExists, vs, cur).0, exact)
  {
    ReverseLength(vs);
  }

  lemma SAddGood(exact: bool, ms: seq<string>, cur: Option<Item>)
    requires GoodOption(cur, exact) && (exact ==> AllExact(ms))
    ensures GoodOption(SAddStep(ms, cur).0, exact)
  {
    hide AddAll, Exact;
    if ms != [] && (cur.None? || cur.value.value.Set?) {
      var had := if cur.None? then FRESH else cur.value.value.e;
      AddAllGrows(had, ms);
      if exact {
        AddAllExact(had, ms);
        forall m | m in ToSet(ms) ensures Exact(m) {}
      }
    }
  }

  lemma HSetGood(exact: bool, args: seq<string>, cur: Option<Item>)
    requires GoodOption(cur, exact)
    ensures GoodOption(HSetStep(args, cur).0, exact)
  {
    if |args| >= 2 { assert args[|args| - 2] in Pairs(args); }
  }

  lemma {:induction false} ScoresGood(args: seq<string>)
    requires Scores(args).Some?
    ensures forall m :: m in Scores(args).value ==> IsInt64(Scores(args).value[m])
    ensures |args| >= 2 ==> args[|args| - 1] in Scores(args).value
    decreases |args|
  {
    hide ParseInt64;
    if |args| >= 2 {
      ScoresGood(args[..|args| - 2]);
      ParsedInt64(args[|args| - 2]);
    }
  }

  lemma ZAddGood(exact: bool, args: seq<string>, cur: Option<Item>)
    requires GoodOption(cur, exact)
    ensures GoodOption(ZAddStep(args, cur).0, exact)
  {
    hide Scores;
    if |args| >= 2 && Scores(args).Some? { ScoresGood(args); }
  }

  lemma PopGood(exact: bool, head: bool, args: seq<string>, cur: Option<Item>)
    requires GoodOption(cur, exact)
    ensures GoodOption(PopStep(head, args, cur).0, exact)
  {
    hide ParseInt64, Reverse;
  }

  lemma StringGood(exact: bool, now: int, verb: Verb, args: seq<string>, cur: Option<Item>)
    requires GoodOption(cur, exact)
    ensures GoodOption(StringStep(now, verb, args, cur).0, exact)
  {
    hide ParseInt64, FormatInt, TtlStep;
    if verb == TTL || verb == PTTL { TtlKeeps(now, verb == PTTL, cur); }
  }

  lemma SetGood(exact: bool, now: int, args: seq<string>, cur: Option<Item>)
    requires GoodOption(cur, exact)
    ensures GoodOption(SetStep(now, args, cur).0, exact) && GoodOption(GetExStep(now, args, cur).0, exact)
  {
    hide ParseInt64, ParseSet, ParseGetEx, Resolve;
  }

  lemma ExpireGood(exact: bool, now: int, u: Unit, args: seq<string>, cur: Option<Item>)
    requires GoodOption(cur, exact)
    ensures GoodOption(ExpireStep(now, u, args, cur).0, exact)
  {
    hide ParseInt64, ParseFlags, Deadline, Blocked;
  }

  /** A one-key command leaves no empty collection and no score out of range. */
  lemma KeyGood(exact: bool, now: int, verb: Verb, args: seq<string>, pick: seq<string>, cur: Option<Item>)
    requires GoodOption(cur, exact) && (exact && verb.SADD? ==> AllExact(args))
    ensures GoodOption(KeyStep(now, verb, args, pick, cur).0, exact)
  {
    hide SetStep, GetExStep, ExpireStep, PushStep, PopStep, SAddStep, SRemStep, SPopStep, HSetStep, ZAddStep;
    hide StringStep, GoodOption, AllExact;
    match verb
    case SET => SetGood(exact, now, args, cur);
    case GETEX => SetGood(exact, now, args, cur);
    case EXPIRE => ExpireGood(exact, now, Ex, args, cur);
    case PEXPIRE => ExpireGood(exact, now, Px, args, cur);
    case EXPIREAT => ExpireGood(exact, now, ExAt, args, cur);
    case PEXPIREAT => ExpireGood(exact, now, PxAt, args, cur);
    case LPUSH => PushGood(exact, true, false, args, cur);
    case RPUSH => PushGood(exact, false, false, args, cur);
    case LPUSHX => PushGood(exact, true, true, args, cur);
    case RPUSHX => PushGood(exact, false, true, args, cur);
    case LPOP => PopGood(exact, true, args, cur);
    case RPOP => PopGood(exact, false, args, cur);
    case SADD => SAddGood(exact, args, cur);
    case SREM => RemovalGood(exact, args, pick, cur);
    case SPOP => RemovalGood(exact, args, pick, cur);
    case HSET => HSetGood(exact, args, cur);
    case ZADD => ZAddGood(exact, args, cur);
    case _ => StringGood(exact, now, verb, args, cur);
  }

  lemma RemovalGood(exact: bool, args: seq<string>, pick: seq<string>, cur: Option<Item>)
    requires GoodOption(cur, exact)
    ensures GoodOption(SRemStep(args, cur).0, exact) && GoodOption(SPopStep(args, pick, cur).0, exact)
  {
    hide ParseInt64, RemoveAll, Exact;
    if cur.Some? && cur.value.value.Set? { RemoveAllShrinks(cur.value.value.e, args); }
  }

  ghost predicate AllGood(ks: Keys, exact: bool) {
    forall k :: k in ks ==> GoodItem(ks[k], exact)
  }

  lemma PutGood(exact: bool, ks: Keys, k: Slot, v: Option<Item>)
    requires AllGood(ks, exact) && GoodOption(v, exact)
    ensures AllGood(Put(ks, k, v), exact)
  {
    hide GoodItem;
  }

  lemma AtGood(exact: bool, ks: Keys, k: Slot)
    requires AllGood(ks, exact)
    ensures GoodOption(At(ks, k), exact)
  {
    hide GoodItem;
  }

  lemma {:induction false} DelGood(exact: bool, ks: Keys, db: nat, keys: seq<string>)
    requires AllGood(ks, exact)
    ensures AllGood(DelAll(ks, db, keys).0, exact)
    decreases |keys|
  {
    hide GoodItem;
    if keys != [] { DelGood(exact, ks - {Slot(db, keys[0])}, db, keys[1..]); }
  }

  lemma {:induction false} BPopGood(exact: bool, ks: Keys, db: nat, head: bool, keys: seq<string>)
    requires AllGood(ks, exact)
    ensures AllGood(BPop(ks, db, head, keys).0, exact)
    decreases |keys|
  {
    hide PopStep, Put, AllGood, GoodOption;
    if keys != [] {
      var k := Slot(db, keys[0]);
      BPopGood(exact, ks, db, head, keys[1..]);
      if k in ks {
        AtGood(exact, ks, k);
        PopGood(exact, head, [], Some(ks[k]));
        PutGood(exact, ks, k, PopStep(head, [], Some(ks[k])).0);
      }
    }
  }

  lemma MoveGood(exact: bool, ks: Keys, db: nat, src: string, dst: string, fromHead: bool, toHead: bool)
    requires AllGood(ks, exact)
    ensures AllGood(Move(ks, db, src, dst, fromHead, toHead).0, exact)
  {
    hide PopStep, PushStep, Put;
    var s, d := Slot(db, src), Slot(db, dst);
    if s in ks {
      var r := PopStep(fromHead, [], Some(ks[s]));
      if r.1.Blob? {
        AtGood(exact, ks, s);
        AtGood(exact, ks, d);
        PopGood(exact, fromHead, [], Some(ks[s]));
        var p := PushStep(toHead, false, [r.1.b], At(ks, d));
        PushGood(exact, toHead, false, [r.1.b], At(ks, d));
        PutGood(exact, ks, d, p.0);
        PutGood(exact, Put(ks, d, p.0), s, r.0);
      }
    }
  }

  lemma MoveArgsGood(exact: bool, ks: Keys, db: nat, args: seq<string>)
    requires AllGood(ks, exact)
    ensures AllGood(MoveArgs(ks, db, args).0, exact)
  {
    hide WordOf, Move, AllGood;
    if |args| >= 4 { MoveGood(exact, ks, db, args[0], args[1], WordOf(args[2]).LEFT?, WordOf(args[3]).LEFT?); }
  }

  /** The members an SADD names are exact texts. */
  predicate ExactArgs(c: Cmd) {
    c.verb.SADD? && c.args != [] ==> AllExact(c.args[1..])
  }

  /** No command leaves an empty collection or a score out of range; and one that names
      exact members only leaves sets of exact members. */
  lemma ExecGood(exact: bool, now: int, db: nat, c: Cmd, ks: Keys)
    requires AllGood(ks, exact) && (exact ==> ExactArgs(c))
    ensures AllGood(Exec(now, db, c, ks).0, exact)
  {
    hide AllExact, WordOf, BPop, Move, DelAll, MoveArgs, KeyStep, Put, GoodItem;
    var args := c.args;
    match c.verb
    case FLUSHDB =>
    case FLUSHALL =>
    case DEL => DelGood(exact, ks, db, args);
    case BLPOP => if |args| >= 2 { BPopGood(exact, ks, db, true, args[..|args| - 1]); }
    case BRPOP => if |args| >= 2 { BPopGood(exact, ks, db, false, args[..|args| - 1]); }
    case LMOVE => MoveArgsGood(exact, ks, db, args);
    case BLMOVE => if |args| == 5 { MoveArgsGood(exact, ks, db, args[..4]); }
    case RPOPLPUSH => if |args| == 2 { MoveGood(exact, ks, db, args[0], args[1], false, true); }
    case BRPOPLPUSH => if |args| == 3 { MoveGood(exact, ks, db, args[0], args[1], false, true); }
    case _ =>
      if args != [] {
        var k := Slot(db, args[0]);
        AtGood(exact, ks, k);
        KeyGood(exact, now, c.verb, args[1..], c.pick, At(ks, k));
        PutGood(exact, ks, k, KeyStep(now, c.verb, args[1..], c.pick, At(ks, k)).0);
      }
  }

  predicate AllExactArgs(cs: seq<Issued>) {
    forall i :: 0 <= i < |cs| ==> ExactArgs(cs[i].cmd)
  }

  lemma {:induction false} RunGood(exact: bool, now: int, cs: seq<Issued>, ks: Keys)
    requires AllGood(ks, exact) && Live(ks, now) && (exact ==> AllExactArgs(cs))
    ensures AllGood(RunAll(now, cs, ks), exact) && Live(RunAll(now, cs, ks), now)
    decreases |cs|
  {
    hide AllGood, Live, Exec, ExactArgs;
    if cs != [] {
      ExecGood(exact, now, cs[0].db, cs[0].cmd, ks);
      ExecStaysLive(now, cs[0].db, cs[0].cmd, ks);
      RunGood(exact, now, cs[1..], Exec(now, cs[0].db, cs[0].cmd, ks).0);
    }
  }

  /** A walk over the whole keyspace: every slot once, members in some order, each once. */
  ghost predicate Walks(ds: seq<Dumped>, ks: Keys) {
    && Distinct(ds)
    && (forall i :: 0 <= i < |ds| ==> ds[i].slot in ks && ks[ds[i].slot] == ds[i].item && Ordered(ds[i]))
    && (forall k :: k in ks ==> exists i :: 0 <= i < |ds| && ds[i].slot == k)
  }

  /** The keyspace that commands left from an empty one, walked over. */
  lemma ReachableDumps(exact: bool, now: int, cs: seq<Issued>, ds: seq<Dumped>)
    requires 0 <= now && Walks(ds, RunAll(now, cs, map[])) && (exact ==> AllExactArgs(cs))
    ensures Dumps(ds, RunAll(now, cs, map[]), now)
    ensures exact ==> AllComeBack(ds, now)
  {
    hide RunAll, Ordered, Members, AllExactArgs, ReloadsWell;
    var ks := RunAll(now, cs, map[]);
    RunGood(exact, now, cs, map[]);
    forall i | 0 <= i < |ds| ensures GoodDump(ds[i]) && Alive(ds[i].item, now) {
      WalkedIsGood(exact, now, ds[i], ks);
    }
    if exact {
      forall i | 0 <= i < |ds| ensures ComesBack(ds[i]) {
        WalkedComesBack(ds[i], ks);
      }
    }
  }

  lemma NoneIsOverdue(ks: Keys, ds: seq<Dumped>, now: int)
    requires Walks(ds, ks) && Dumps(ds, ks, now)
    ensures LivePart(ks, now, now) == ks
  {
    hide GoodDump, Ordered, Alive;
    forall k | k in ks ensures Alive(ks[k], now) {
      var i :| 0 <= i < |ds| && ds[i].slot == k;
    }
  }

  lemma WalkedIsGood(exact: bool, now: int, d: Dumped, ks: Keys)
    requires 0 <= now && AllGood(ks, exact) && Live(ks, now) && d.slot in ks && ks[d.slot] == d.item && Ordered(d)
    ensures GoodDump(d) && Alive(d.item, now)
  {
    hide Ordered;
    assert LiveItem(ks[d.slot], now) && GoodItem(ks[d.slot], exact);
  }

  lemma WalkedComesBack(d: Dumped, ks: Keys)
    requires AllGood(ks, true) && d.slot in ks && ks[d.slot] == d.item && Ordered(d)
    ensures ComesBack(d)
  {
    hide Exact, ReloadsWell, Storable;
    assert GoodItem(ks[d.slot], true);
    if d.item.value.Set? { ReloadsOfExact(d.order); }
  }

  /** Whatever commands ran from an empty keyspace, the rewrite of what they left can be
      taken; replaying it gives the same keyspace back if and only if every set comes
      back, and always when the SADD commands of the run named exact members only. */
  lemma ReachableIsRebuilt(now: int, cs: seq<Issued>, ds: seq<Dumped>)
    requires 0 <= now && Walks(ds, RunAll(now, cs, map[]))
    ensures forall i :: 0 <= i < |ds| ==> GoodDump(ds[i])
    ensures var was := RunAll(now, cs, map[]);
            SameKeys(RunAll(now, DumpCmds(ds), map[]), was) <==> AllComeBack(ds, now)
    ensures AllExactArgs(cs) ==> SameKeys(RunAll(now, DumpCmds(ds), map[]), RunAll(now, cs, map[]))
  {
    hide RunAll, DumpCmds, GoodDump, Rebuilt, SameItem, AllComeBack, AllExactArgs, Walks;
    var ks := RunAll(now, cs, map[]);
    ReachableDumps(AllExactArgs(cs), now, cs, ds);
    RewriteRebuilds(ks, ds, now, now);
    NoneIsOverdue(ks, ds, now);
  }
}
