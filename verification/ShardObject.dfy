/**
 The shard object (lib/shard/shard.go, lib/shard/evict.go): its mutable fields and the
 methods the command handlers and the shard loop call.  Every method is tied to the
 state function of `Keyspace` it implements; the loops (sweep, volatile-ttl eviction,
 flush) are also specified by what they achieve.
 */
module ShardObject {
  import opened Basics
  import opened Keyspace
  import opened Eviction

  lemma {:induction false} RunSnoc<V>(c: Config<V>, s: State<V>, ops: seq<Op<V>>, op: Op<V>)
    requires CanRun(c, s, ops) && Legal(Run(c, s, ops), op)
    ensures CanRun(c, s, ops + [op]) && Run(c, s, ops + [op]) == Apply(c, Run(c, s, ops), op)
    decreases |ops|
  {
    if ops == [] {
      assert ops + [op] == [op];
      assert CanRun(c, Apply(c, s, op), [op][1..]);
    } else {
      var q := ops + [op];
      assert q[0] == ops[0] && q[1..] == ops[1..] + [op];
      RunSnoc(c, Apply(c, s, ops[0]), ops[1..], op);
    }
  }

  /** Keys of one DB. */
  ghost function KeysOf<V>(tab: map<Slot, Entry<V>>, db: nat): set<Slot> {
    set k | k in tab && k.db == db
  }

  /** Keys of one DB whose deadline has not passed. */
  ghost function LiveKeys<V>(tab: map<Slot, Entry<V>>, db: nat, now: int): set<Slot> {
    set k | k in tab && k.db == db && !Due(tab[k], now)
  }

  /** `tab'` is `tab` without some entries, all of which were due. */
  ghost predicate OnlyDueGone<V>(tab: map<Slot, Entry<V>>, tab': map<Slot, Entry<V>>, now: int) {
    && (forall k :: k in tab' ==> k in tab && tab'[k] == tab[k])
    && (forall k :: k in tab && k !in tab' ==> Due(tab[k], now))
  }

  /** From s0, popping heap items and nothing else leads to s, and only due keys went. */
  ghost predicate Swept<V>(c: Config<V>, s0: State<V>, s: State<V>, ops: seq<Op<V>>, now: int) {
    && Inv(s) && CanRun(c, s0, ops) && s == Run(c, s0, ops)
    && (forall i :: 0 <= i < |ops| ==> ops[i].PopItem?)
    && OnlyDueGone(s0.tab, s.tab, now)
  }

  lemma SweptStep<V>(c: Config<V>, s0: State<V>, s: State<V>, ops: seq<Op<V>>, now: int, top: ExpItem)
    requires Swept(c, s0, s, ops, now) && top in s.heap && top.at <= now
    ensures var s' := Apply(c, s, Op.PopItem(top));
            && Swept(c, s0, s', ops + [Op.PopItem(top)], now)
            && |s'.heap| == |s.heap| - 1
            && |s'.tab| == |s.tab| - (if Matches(s, top) then 1 else 0)
  {
    var s' := Apply(c, s, Op.PopItem(top));
    PopEffect(c, s, top);
    RunSnoc(c, s0, ops, Op.PopItem(top));
    DueGoes(s0.tab, s.tab, s'.tab, top, now);
  }

  lemma DueGoes<V>(tab0: map<Slot, Entry<V>>, tab: map<Slot, Entry<V>>, tab': map<Slot, Entry<V>>, top: ExpItem,
                   now: int)
    requires OnlyDueGone(tab0, tab, now) && 0 < top.at <= now
    requires tab' == tab || (top.slot in tab && tab[top.slot].expireAt == top.at && tab' == tab - {top.slot})
    ensures OnlyDueGone(tab0, tab', now)
  {
  }

  /** A tombstone leaves the table, the counters and the heap alone. */
  lemma TombstoneKeeps<V>(c: Config<V>, s: State<V>, k: Slot, ver: nat)
    ensures var t := Tombstone(c, s, k, ver); t == State(s.tab, t.tomb, t.epoch, s.used, s.total, s.heap)
  {
  }

  class Shard<V(!new)> {
    const cfg: Config<V>
    var tab: map<Slot, Entry<V>>
    var tomb: map<Slot, nat>
    var epoch: seq<nat>
    var used: seq<int>
    var total: int
    var heap: multiset<ExpItem>

    ghost function St(): State<V>
      reads this
    {
      State(tab, tomb, epoch, used, total, heap)
    }

    constructor (cfg: Config<V>, dbs: nat)
      ensures this.cfg == cfg && St() == Fresh(dbs) && Inv(St())
    {
      this.cfg := cfg;
      tab, tomb, heap, total := map[], map[], multiset{}, 0;
      epoch, used := seq(dbs, _ => 0), seq(dbs, _ => 0);
      new;
      ZeroSum(used);
    }

    method AddMem(db: nat, delta: int)
      requires db < |used|
      modifies this`used, this`total
      ensures St() == Keyspace.AddMem(old(St()), db, delta)
    {
      used := used[db := used[db] + delta];
      total := total + delta;
    }

    method PutTombstone(k: Slot, ver: nat)
      modifies this`tomb, this`epoch
      ensures St() == Tombstone(cfg, old(St()), k, ver)
    {
      if |tomb| >= cfg.tombCap {
        tomb := map[];
        var i := 0;
        ghost var e0 := epoch;
        while i < |epoch|
          invariant 0 <= i <= |epoch| == |e0| && tomb == map[]
          invariant forall j :: 0 <= j < i ==> epoch[j] == e0[j] + 1
          invariant forall j :: i <= j < |epoch| ==> epoch[j] == e0[j]
        {
          epoch := epoch[i := epoch[i] + 1];
          i := i + 1;
        }
        assert epoch == Bumped(e0);
      }
      tomb := tomb[k := ver + 1];
    }

    /** The shared tail of passive expiry, sweep, eviction and deletion. */
    method RemoveEntry(k: Slot)
      requires k in tab && k.db < |used|
      modifies this
      ensures St() == Remove(cfg, old(St()), k)
    {
      hide Tombstone;
      var e := tab[k];
      PutTombstone(k, e.version);
      tab := tab - {k};
      AddMem(k.db, 0 - e.mem);
      TombstoneKeeps(cfg, old(St()), k, e.version);
    }

    method Lookup(now: int, k: Slot) returns (e: Option<Entry<V>>)
      requires k.db < |used|
      modifies this
      ensures St() == Keyspace.Lookup(cfg, old(St()), now, k)
      ensures e == if k in tab then Some(tab[k]) else None
    {
      if k !in tab { return None; }
      if 0 < tab[k].expireAt <= now {
        RemoveEntry(k);
        return None;
      }
      return Some(tab[k]);
    }

    method Store(k: Slot, v: V, at: int, gen: nat)
      requires k.db < |used|
      modifies this
      ensures St() == Keyspace.Store(cfg, old(St()), k, v, at, gen)
      ensures k in tab && tab[k].value == v && tab[k].expireAt == at && tab[k].gen == gen
      ensures tab - {k} == old(tab) - {k} && k !in tomb
    {
      var base := if k in tomb then tomb[k] else 0;
      if k in tab && tab[k].version > base {
        base := tab[k].version;
      }
      var mem := EntryMem(cfg, k, v);
      AddMem(k.db, if k in tab then mem - tab[k].mem else mem);
      tomb := tomb - {k};
      tab := tab[k := Entry(v, at, gen, base + 1, mem)];
    }

    method Delete(now: int, k: Slot) returns (existed: bool)
      requires k.db < |used|
      modifies this
      ensures St() == Apply(cfg, old(St()), Op.Delete(now, k))
      ensures existed <==> old(k in tab && !Due(tab[k], now))
    {
      var e := Lookup(now, k);
      if e.None? { return false; }
      RemoveEntry(k);
      return true;
    }

    /** Touch after an in-place change of value or deadline. */
    method Touch(k: Slot, v: V, at: int)
      requires k in tab && k.db < |used|
      modifies this
      ensures St() == Keyspace.Touch(cfg, old(St()), k, v, at)
      ensures k in tab && tab[k].value == v && tab[k].expireAt == at && tab[k].version == old(tab)[k].version + 1
      ensures tab - {k} == old(tab) - {k}
    {
      var e := tab[k];
      var mem := EntryMem(cfg, k, v);
      AddMem(k.db, mem - e.mem);
      tab := tab[k := Entry(v, at, e.gen, e.version + 1, mem)];
    }

    method PushExpire(k: Slot)
      requires k in tab
      modifies this`tab, this`heap
      ensures St() == Keyspace.PushExpire(old(St()), k)
    {
      var e := tab[k].(gen := tab[k].gen + 1);
      tab := tab[k := e];
      heap := heap + multiset{ExpItem(e.expireAt, k, e.gen)};
    }

    /** FLUSHDB as one step: the keyspace swap, then flushDB with its purge loop. */
    method FlushDB(db: nat)
      requires db < |used| && db < |epoch|
      modifies this
      ensures St() == Keyspace.FlushDB(old(St()), db)
    {
      tab := Outside(tab, db);
      tomb := Outside(tomb, db);
      AddMem(db, 0 - used[db]);
      heap := Purge(heap, db);
      epoch := epoch[db := epoch[db] + 1];
    }

    /** Pop an item the heap gave and act on it: stale items are dropped, a matching
        one removes its entry.  One turn of the sweep and eviction loops. */
    method PopItem(top: ExpItem) returns (removed: bool)
      requires top in heap && top.slot.db < |used|
      modifies this
      ensures St() == Apply(cfg, old(St()), Op.PopItem(top))
      ensures removed <==> old(Matches(St(), top))
    {
      heap := heap - multiset{top};
      removed := false;
      if top.slot in tab {
        var e := tab[top.slot];
        if e.expireAt == top.at && e.gen == top.gen {
          RemoveEntry(top.slot);
          removed := true;
        }
      }
    }

    /** The earliest item of the heap. */
    method Peek() returns (top: ExpItem)
      requires heap != multiset{}
      ensures top in heap && Earliest(heap, top)
    {
      EarliestExists(heap);
      top :| top in heap && Earliest(heap, top);
    }

    /** The active expiry sweep.  A negative limit means unbounded; `timed` says that
        a time box may stop the loop after the first item. */
    method Sweep(now: int, limit: int, timed: bool) returns (expired: nat, more: bool, ghost ops: seq<Op<V>>)
      requires Inv(St())
      modifies this
      ensures Swept(cfg, old(St()), St(), ops, now)
      ensures expired == |old(tab)| - |tab|
      ensures more ==> exists it :: it in heap && it.at <= now
      ensures !more ==> forall k :: k in tab ==> !Due(tab[k], now)
      ensures limit < 0 && !timed ==> !more
    {
      expired, more, ops := 0, false, [];
      ghost var s0 := St();
      var popped := 0;
      while limit < 0 || popped < limit
        invariant Swept(cfg, s0, St(), ops, now) && expired == |s0.tab| - |tab|
        decreases |heap|
      {
        if heap == multiset{} { return; }
        var top := Peek();
        if top.at > now {
          NothingDue(St(), top, now);
          return;
        }
        if timed && popped > 0 {
          if * { more := true; return; }
        }
        SweptStep(cfg, s0, St(), ops, now, top);
        var removed := PopItem(top);
        ops := ops + [Op.PopItem(top)];
        popped := popped + 1;
        if removed { expired := expired + 1; }
      }
      if heap != multiset{} {
        var top := Peek();
        more := top.at <= now;
        if !more { NothingDue(St(), top, now); }
      }
    }

    /** DBSIZE's share of this shard: an unbounded sweep, then the table's length. */
    method LiveCount(now: int, db: nat) returns (n: nat)
      requires Inv(St())
      modifies this
      ensures Inv(St())
      ensures n == |LiveKeys(old(tab), db, now)|
    {
      ghost var tab0 := tab;
      var _, _, _ := Sweep(now, -1, false);
      assert KeysOf(tab, db) == LiveKeys(tab0, db, now) by {
        forall k ensures k in KeysOf(tab, db) <==> k in LiveKeys(tab0, db, now) { }
      }
      n := |set k | k in tab && k.db == db|;
    }

    /** The volatile-ttl victim: items popped in deadline order, stale ones dropped,
        overdue entries expired on the way, the first live match evicted. */
    method EvictTTL(l: Limits) returns (evicted: bool, victim: Slot, ghost ops: seq<Op<V>>)
      requires Inv(St()) && l.policy.VolatileTtl?
      modifies this
      ensures Inv(St()) && Turn(cfg, l, old(St()), ops, 0, St(), evicted)
      ensures !evicted ==> OnlyDueGone(old(tab), tab, l.now)
      ensures evicted ==> IsVictim(old(tab), tab, victim, l.now)
    {
      hide Inv, Turn, OnlyDueGone, IsVictim;
      evicted, victim, ops := false, Slot(0, ""), [];
      ghost var s0 := St();
      assert OnlyDueGone(s0.tab, tab, l.now) by { NoneGone(tab, l.now); }
      StartsTurn(cfg, l, s0);
      var tries: nat := 0;
      while tries < 2 * l.samples
        invariant Inv(St()) && OnlyDueGone(s0.tab, tab, l.now)
        invariant LeadsTo(cfg, l, s0, ops, St(), tries)
      {
        if heap == multiset{} { EndsTurn(cfg, l, s0, ops, St(), tries); return; }
        var top := Peek();
        EvictTurn(cfg, s0.tab, St(), top, l.now);
        ItemInRange(St(), top);
        TakesNext(cfg, l, s0, ops, St(), tries, Op.PopItem(top));
        var removed := PopItem(top);
        ops := ops + [Op.PopItem(top)];
        if removed && top.at > l.now {
          evicted, victim := true, top.slot;
          return;
        }
        tries := tries + 1;
      }
      EndsTurn(cfg, l, s0, ops, St(), tries);
    }

    /** The other policies: the tracker or the sample offers some key, or none. */
    method EvictOffered(l: Limits) returns (evicted: bool, ghost ops: seq<Op<V>>)
      requires Inv(St()) && (l.policy.AllKeys? || l.policy.Volatile?)
      modifies this
      ensures Inv(St()) && Turn(cfg, l, old(St()), ops, 0, St(), evicted)
    {
      hide Inv, Turn, Remove;
      evicted, ops := false, [];
      ghost var s0 := St();
      StartsTurn(cfg, l, s0);
      var tries: nat, limit := 0, Tries(l, |used|);
      while tries < limit
        invariant Inv(St()) && |used| == |s0.used|
        invariant LeadsTo(cfg, l, s0, ops, St(), tries)
      {
        var offered := set k | k in tab && (l.policy.AllKeys? || tab[k].expireAt != 0);
        if offered == {} { break; }
        if * { break; }
        var k :| k in offered;
        var due := Due(tab[k], l.now);
        KeyInRange(St(), k);
        TakesNext(cfg, l, s0, ops, St(), tries, Op.Evict(k));
        CandidateShrinks(cfg, l, St(), Op.Evict(k));
        StillInv(St(), Apply(cfg, St(), Op.Evict(k)), 1);
        RemoveEntry(k);
        ops := ops + [Op.Evict(k)];
        if !due { return true, ops; }
        tries := tries + 1;
      }
      EndsTurn(cfg, l, s0, ops, St(), tries);
    }

    /** `evictOne`. */
    method EvictOne(l: Limits) returns (evicted: bool, ghost ops: seq<Op<V>>)
      requires Inv(St()) && !l.policy.NoEviction?
      modifies this
      ensures Inv(St()) && Turn(cfg, l, old(St()), ops, 0, St(), evicted)
    {
      hide Inv, Turn;
      if l.policy.VolatileTtl? {
        var victim;
        evicted, victim, ops := EvictTTL(l);
      } else {
        evicted, ops := EvictOffered(l);
      }
    }

    /** `maybeEvict`: victims until the shard is back under its share. */
    method MaybeEvict(l: Limits) returns (ghost log: seq<Search<V>>)
      requires Inv(St())
      modifies this
      ensures Inv(St()) && Pass(cfg, l, old(St()), log, 0, St())
    {
      hide Inv, Turn, Pass;
      log := [];
      ghost var s0 := St();
      StartsPass(cfg, l, s0);
      if l.maxMemory <= 0 || l.policy.NoEviction? { EndsPass(cfg, l, s0, log, St(), 0); return; }
      var quota := l.maxMemory / l.shards;
      var guard: nat := 0;
      while total > quota
        invariant Inv(St()) && guard <= 4 * l.samples + 64
        invariant PassLeadsTo(cfg, l, s0, log, St(), guard)
        decreases 4 * l.samples + 64 - guard
      {
        ghost var s := St();
        var found, ops := EvictOne(l);
        SearchesNext(cfg, l, s0, log, s, guard, Search(ops, St(), found));
        log := log + [Search(ops, St(), found)];
        if !found { return; }
        guard := guard + 1;
        if guard > 4 * l.samples + 64 { EndsPass(cfg, l, s0, log, St(), guard); return; }
      }
      EndsPass(cfg, l, s0, log, St(), guard);
    }
  }

  // ---------------------------------------------------------- loops of searches, cut short

  /** The candidates taken so far lead to s: whatever ends a search there ends this one. */
  ghost predicate LeadsTo<V(!new)>(c: Config<V>, l: Limits, s0: State<V>, ops: seq<Op<V>>, s: State<V>, tries: nat) {
    forall rest, s', found :: Turn(c, l, s, rest, tries, s', found) ==> Turn(c, l, s0, ops + rest, 0, s', found)
  }

  lemma StartsTurn<V(!new)>(c: Config<V>, l: Limits, s: State<V>)
    ensures LeadsTo(c, l, s, [], s, 0)
  {
    hide Turn;
    forall rest, s', found | Turn(c, l, s, rest, 0, s', found) ensures Turn(c, l, s, [] + rest, 0, s', found) {
      assert [] + rest == rest;
    }
  }

  lemma EndsTurn<V(!new)>(c: Config<V>, l: Limits, s0: State<V>, ops: seq<Op<V>>, s: State<V>, tries: nat)
    requires LeadsTo(c, l, s0, ops, s, tries) && Exhausted(l, s, tries)
    ensures Turn(c, l, s0, ops, 0, s, false)
  {
    assert Turn(c, l, s, [], tries, s, false);
    assert ops + [] == ops;
  }

  lemma TakesNext<V(!new)>(c: Config<V>, l: Limits, s0: State<V>, ops: seq<Op<V>>, s: State<V>, tries: nat, op: Op<V>)
    requires LeadsTo(c, l, s0, ops, s, tries) && tries < Tries(l, |s.used|) && Candidate(l, s, op) && Legal(s, op)
    ensures Wins(l, s, op) ==> Turn(c, l, s0, ops + [op], 0, Apply(c, s, op), true)
    ensures !Wins(l, s, op) ==> LeadsTo(c, l, s0, ops + [op], Apply(c, s, op), tries + 1)
  {
    hide Candidate, Legal, Apply, Wins, Tries;
    var m := Apply(c, s, op);
    if Wins(l, s, op) {
      assert Turn(c, l, s, [op], tries, m, true);
    } else {
      forall rest, s', found | Turn(c, l, m, rest, tries + 1, s', found)
        ensures Turn(c, l, s0, ops + [op] + rest, 0, s', found) {
        assert ([op] + rest)[1..] == rest;
        assert Turn(c, l, s, [op] + rest, tries, s', found);
        assert ops + [op] + rest == ops + ([op] + rest);
      }
    }
  }

  /** The same for whole searches in a pass. */
  ghost predicate PassLeadsTo<V(!new)>(c: Config<V>, l: Limits, s0: State<V>, log: seq<Search<V>>, s: State<V>,
                                 victims: nat) {
    forall rest, s' :: Pass(c, l, s, rest, victims, s') ==> Pass(c, l, s0, log + rest, 0, s')
  }

  lemma StartsPass<V(!new)>(c: Config<V>, l: Limits, s: State<V>)
    ensures PassLeadsTo(c, l, s, [], s, 0)
  {
    hide Pass;
    forall rest, s' | Pass(c, l, s, rest, 0, s') ensures Pass(c, l, s, [] + rest, 0, s') {
      assert [] + rest == rest;
    }
  }

  lemma EndsPass<V(!new)>(c: Config<V>, l: Limits, s0: State<V>, log: seq<Search<V>>, s: State<V>, victims: nat)
    requires PassLeadsTo(c, l, s0, log, s, victims) && (!Presses(l, s) || victims > 4 * l.samples + 64)
    ensures Pass(c, l, s0, log, 0, s)
  {
    assert Pass(c, l, s, [], victims, s);
    assert log + [] == log;
  }

  lemma SearchesNext<V(!new)>(c: Config<V>, l: Limits, s0: State<V>, log: seq<Search<V>>, s: State<V>, victims: nat,
                        t: Search<V>)
    requires PassLeadsTo(c, l, s0, log, s, victims) && Presses(l, s) && victims <= 4 * l.samples + 64
    requires Turn(c, l, s, t.ops, 0, t.after, t.found)
    ensures !t.found ==> Pass(c, l, s0, log + [t], 0, t.after)
    ensures t.found ==> PassLeadsTo(c, l, s0, log + [t], t.after, victims + 1)
  {
    hide Turn;
    if t.found {
      forall rest, s' | Pass(c, l, t.after, rest, victims + 1, s') ensures Pass(c, l, s0, log + [t] + rest, 0, s') {
        assert ([t] + rest)[1..] == rest;
        assert Pass(c, l, s, [t] + rest, victims, s');
        assert log + [t] + rest == log + ([t] + rest);
      }
    } else {
      assert Pass(c, l, s, [t], victims, t.after);
    }
  }

  lemma ItemInRange<V>(s: State<V>, it: ExpItem)
    requires Inv(s) && it in s.heap
    ensures it.slot.db < |s.used| && it.at > 0
  {
  }

  lemma KeyInRange<V>(s: State<V>, k: Slot)
    requires Inv(s) && k in s.tab
    ensures k.db < |s.used|
  {
  }

  lemma NoneGone<V>(tab: map<Slot, Entry<V>>, now: int)
    ensures OnlyDueGone(tab, tab, now)
  {
  }

  /** `victim` was live, and no entry left in the table has an earlier deadline. */
  ghost predicate IsVictim<V>(tab0: map<Slot, Entry<V>>, tab: map<Slot, Entry<V>>, victim: Slot, now: int) {
    && victim in tab0 && victim !in tab && tab0[victim].expireAt > now
    && OnlyDueGone(tab0 - {victim}, tab, now)
    && (forall k :: k in tab && tab[k].expireAt > 0 ==> tab0[victim].expireAt <= tab[k].expireAt)
  }

  lemma EvictTurn<V>(c: Config<V>, tab0: map<Slot, Entry<V>>, s: State<V>, top: ExpItem, now: int)
    requires Inv(s) && OnlyDueGone(tab0, s.tab, now) && top in s.heap && Earliest(s.heap, top)
    ensures var s' := Apply(c, s, Op.PopItem(top));
            && Inv(s')
            && if Matches(s, top) && top.at > now then IsVictim(tab0, s'.tab, top.slot, now)
               else OnlyDueGone(tab0, s'.tab, now)
  {
    var s' := Apply(c, s, Op.PopItem(top));
    PopEffect(c, s, top);
    NoneEarlier(s, top);
    if Matches(s, top) && top.at <= now {
      DueGoes(tab0, s.tab, s'.tab, top, now);
    }
  }

  /** The earliest item bounds every deadline in the table. */
  lemma NoneEarlier<V>(s: State<V>, top: ExpItem)
    requires HeapCovers(s.tab, s.heap) && Earliest(s.heap, top)
    ensures forall k :: k in s.tab && s.tab[k].expireAt > 0 ==> top.at <= s.tab[k].expireAt
  {
    forall k | k in s.tab && s.tab[k].expireAt > 0 ensures top.at <= s.tab[k].expireAt {
      assert ExpItem(s.tab[k].expireAt, k, s.tab[k].gen) in s.heap;
    }
  }

  lemma NothingDue<V>(s: State<V>, top: ExpItem, now: int)
    requires HeapCovers(s.tab, s.heap) && Earliest(s.heap, top) && top.at > now
    ensures forall k :: k in s.tab ==> !Due(s.tab[k], now)
  {
    NoneEarlier(s, top);
  }

  /** One popped item removes at most its own entry, and keeps the invariant. */
  lemma PopEffect<V>(c: Config<V>, s: State<V>, top: ExpItem)
    requires Inv(s) && top in s.heap
    ensures var s' := Apply(c, s, Op.PopItem(top));
            && Inv(s') && |s'.heap| == |s.heap| - 1
            && s'.tab == (if Matches(s, top) then s.tab - {top.slot} else s.tab)
            && (Matches(s, top) ==> |s'.tab| == |s.tab| - 1)
  {
    PopKeepsInv(c, s, top);
    var s1 := s.(heap := s.heap - multiset{top});
    if Matches(s1, top) {
      RemoveFrame(c, s1, top.slot);
      assert (s.tab - {top.slot}).Keys == s.tab.Keys - {top.slot};
    }
  }

  /** The heap rebuilt without one DB's items, as purgeTrackers does it. */
  method Purge(heap: multiset<ExpItem>, db: nat) returns (keep: multiset<ExpItem>)
    ensures keep == Without(heap, db)
  {
    var rest := heap;
    keep := multiset{};
    while rest != multiset{}
      invariant forall it: ExpItem :: it.slot.db == db ==> keep[it] == 0
      invariant forall it: ExpItem :: it.slot.db != db ==> keep[it] + rest[it] == heap[it]
      decreases |rest|
    {
      var it :| it in rest;
      rest := rest - multiset{it};
      if it.slot.db != db { keep := keep + multiset{it}; }
    }
  }

  lemma {:induction false} ZeroSum(xs: seq<int>)
    requires forall i :: 0 <= i < |xs| ==> xs[i] == 0
    ensures Sum(xs) == 0
  {
    if xs != [] { ZeroSum(xs[1..]); }
  }
}
