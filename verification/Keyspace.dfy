/**
 The state one shard keeps about its keys (lib/shard/shard.go, lib/shard/evict.go):
 the table, the tombstones and epochs behind WATCH, the memory counters and the
 expiry heap, with the operations the command handlers apply to them.

 `Op` lists those operations and `Apply` gives their effect, so that a run of a shard
 is a sequence of operations.  The table holds entries as values; the LRU and LFU
 trackers are not modelled (they only choose victims), so an eviction names its key.
 */
module Keyspace {
  import opened Basics

  /** `expireAt` is the deadline in ms, 0 for none; `mem` caches the memory estimate. */
  datatype Entry<V> = Entry(value: V, expireAt: int, gen: nat, version: nat, mem: nat)

  datatype ExpItem = ExpItem(at: int, slot: Slot, gen: nat)

  datatype State<V> = State(
    tab: map<Slot, Entry<V>>,
    tomb: map<Slot, nat>,
    epoch: seq<nat>,
    used: seq<int>,
    total: int,
    heap: multiset<ExpItem>)

  /** What does not change while a shard lives: the tombstone bound and the size
      estimate of a value. */
  datatype Config<!V> = Config(tombCap: nat, usage: V -> nat)

  datatype Op<V> =
    | Read(now: int, k: Slot)                    // Lookup
    | Write(k: Slot, v: V)                       // Store of an entry with no TTL
    | WriteFilled(k: Slot, stored: V, v: V)      // Store of a fresh collection, then filled with no Touch
    | WriteUntil(k: Slot, v: V, at: int)         // Store, PushExpire
    | WriteKeep(k: Slot, v: V)                   // Store keeping deadline and generation (KEEPTTL)
    | Mutate(k: Slot, v: V)                      // in-place change, Touch
    | Persist(k: Slot)                           // drop the deadline, Touch
    | ExpireAt(k: Slot, at: int)                 // set the deadline, Touch, PushExpire
    | Delete(now: int, k: Slot)                  // Delete
    | Evict(k: Slot)                             // evictEntry or expireEntry
    | PopItem(item: ExpItem)                     // one turn of the sweep loop or of evictTTL
    | Flush(db: nat)                             // the keyspace swap and flushDB, as one step

  // ------------------------------------------------------------- primitives

  function EntryMem<V>(c: Config<V>, k: Slot, v: V): nat {
    |k.key| + 80 + c.usage(v)
  }

  function AddMem<V>(s: State<V>, db: nat, delta: int): State<V>
    requires db < |s.used|
  {
    s.(used := s.used[db := s.used[db] + delta], total := s.total + delta)
  }

  function Bumped(epoch: seq<nat>): seq<nat> {
    seq(|epoch|, i requires 0 <= i < |epoch| => epoch[i] + 1)
  }

  function Tombstone<V>(c: Config<V>, s: State<V>, k: Slot, ver: nat): State<V> {
    if |s.tomb| >= c.tombCap then s.(tomb := map[k := ver + 1], epoch := Bumped(s.epoch))
    else s.(tomb := s.tomb[k := ver + 1])
  }

  /** Tombstone, delete from the table, give the memory back: expiry, eviction and
      deletion all do this. */
  function Remove<V>(c: Config<V>, s: State<V>, k: Slot): State<V>
    requires k in s.tab && k.db < |s.used|
  {
    var e := s.tab[k];
    AddMem(Tombstone(c, s, k, e.version).(tab := s.tab - {k}), k.db, 0 - e.mem)
  }

  predicate Due<V>(e: Entry<V>, now: int) {
    0 < e.expireAt <= now
  }

  function Lookup<V>(c: Config<V>, s: State<V>, now: int, k: Slot): State<V>
    requires k.db < |s.used|
  {
    if k in s.tab && Due(s.tab[k], now) then Remove(c, s, k) else s
  }

  /** The version WATCH sees: the live entry's, else the tombstone's, else 0. */
  function Ver<V>(s: State<V>, k: Slot): nat {
    if k in s.tab then s.tab[k].version
    else if k in s.tomb then s.tomb[k]
    else 0
  }

  function Store<V>(c: Config<V>, s: State<V>, k: Slot, v: V, at: int, gen: nat): State<V>
    requires k.db < |s.used|
  {
    var base0 := if k in s.tomb then s.tomb[k] else 0;
    var base := if k in s.tab && s.tab[k].version > base0 then s.tab[k].version else base0;
    var mem := EntryMem(c, k, v);
    var s1 := AddMem(s, k.db, if k in s.tab then mem - s.tab[k].mem else mem);
    s1.(tomb := s.tomb - {k}, tab := s.tab[k := Entry(v, at, gen, base + 1, mem)])
  }

  /** An in-place change of a live entry followed by Touch. */
  function Touch<V>(c: Config<V>, s: State<V>, k: Slot, v: V, at: int): State<V>
    requires k in s.tab && k.db < |s.used|
  {
    var e := s.tab[k];
    var mem := EntryMem(c, k, v);
    AddMem(s, k.db, mem - e.mem).(tab := s.tab[k := Entry(v, at, e.gen, e.version + 1, mem)])
  }

  function PushExpire<V>(s: State<V>, k: Slot): State<V>
    requires k in s.tab
  {
    var e := s.tab[k].(gen := s.tab[k].gen + 1);
    s.(tab := s.tab[k := e], heap := s.heap + multiset{ExpItem(e.expireAt, k, e.gen)})
  }

  predicate Matches<V>(s: State<V>, it: ExpItem) {
    it.slot in s.tab && s.tab[it.slot].expireAt == it.at && s.tab[it.slot].gen == it.gen
  }

  ghost function FlushDB<V>(s: State<V>, db: nat): State<V>
    requires db < |s.used| && db < |s.epoch|
  {
    AddMem(s.(tab := Outside(s.tab, db),
              tomb := Outside(s.tomb, db),
              heap := Without(s.heap, db),
              epoch := s.epoch[db := s.epoch[db] + 1]), db, 0 - s.used[db])
  }

  /** The part of a map that belongs to the other DBs. */
  function Outside<T>(m: map<Slot, T>, db: nat): map<Slot, T> {
    map k | k in m && k.db != db :: m[k]
  }

  /** The heap rebuilt without one DB's items. */
  ghost function Without(heap: multiset<ExpItem>, db: nat): (r: multiset<ExpItem>)
    ensures forall it :: r[it] == if it.slot.db == db then 0 else heap[it]
    decreases |heap|
  {
    if exists it :: it in heap && it.slot.db == db then
      var it :| it in heap && it.slot.db == db;
      Without(heap - multiset{it}, db)
    else
      heap
  }

  // -------------------------------------------------------------------- runs

  /** What the source checks, or has just established, before each operation. */
  predicate Legal<V>(s: State<V>, op: Op<V>) {
    match op
    case Flush(db) => db < |s.used| && db < |s.epoch|
    case PopItem(it) => it in s.heap && it.slot.db < |s.used|
    case Write(k, _) => k.db < |s.used|
    case WriteFilled(k, _, _) => k.db < |s.used|
    case WriteUntil(k, _, at) => k.db < |s.used| && at > 0
    case Read(_, k) => k.db < |s.used|
    case Delete(_, k) => k.db < |s.used|
    case ExpireAt(k, at) => k in s.tab && k.db < |s.used| && at > 0
    case _ => op.k in s.tab && op.k.db < |s.used|
  }

  ghost function Apply<V>(c: Config<V>, s: State<V>, op: Op<V>): State<V>
    requires Legal(s, op)
  {
    match op
    case Read(now, k) => Lookup(c, s, now, k)
    case Write(k, v) => Store(c, s, k, v, 0, 0)
    case WriteFilled(k, stored, v) =>
      var s1 := Store(c, s, k, stored, 0, 0);
      s1.(tab := s1.tab[k := s1.tab[k].(value := v)])
    case WriteUntil(k, v, at) => PushExpire(Store(c, s, k, v, at, 0), k)
    case WriteKeep(k, v) => Store(c, s, k, v, s.tab[k].expireAt, s.tab[k].gen)
    case Mutate(k, v) => Touch(c, s, k, v, s.tab[k].expireAt)
    case Persist(k) => Touch(c, s, k, s.tab[k].value, 0)
    case ExpireAt(k, at) => PushExpire(Touch(c, s, k, s.tab[k].value, at), k)
    case Delete(now, k) =>
      var s1 := Lookup(c, s, now, k);
      if k in s1.tab then Remove(c, s1, k) else s1
    case Evict(k) => Remove(c, s, k)
    case PopItem(it) =>
      var s1 := s.(heap := s.heap - multiset{it});
      if Matches(s1, it) then Remove(c, s1, it.slot) else s1
    case Flush(db) => FlushDB(s, db)
  }

  ghost predicate CanRun<V>(c: Config<V>, s: State<V>, ops: seq<Op<V>>)
    decreases |ops|
  {
    ops == [] || (Legal(s, ops[0]) && CanRun(c, Apply(c, s, ops[0]), ops[1..]))
  }

  ghost function Run<V>(c: Config<V>, s: State<V>, ops: seq<Op<V>>): State<V>
    requires CanRun(c, s, ops)
    decreases |ops|
  {
    if ops == [] then s else Run(c, Apply(c, s, ops[0]), ops[1..])
  }

  ghost function Fresh<V>(dbs: nat): State<V> {
    State(map[], map[], seq(dbs, _ => 0), seq(dbs, _ => 0), 0, multiset{})
  }

  // ------------------------------------------------- memory: sums over the table

  /** Sum of the cached sizes of one DB's entries. */
  ghost function MemOf<V>(tab: map<Slot, Entry<V>>, db: nat): nat
    decreases |tab|
  {
    if tab == map[] then 0
    else
      var k :| k in tab;
      Share(tab, k, db) + MemOf(tab - {k}, db)
  }

  function Share<V>(tab: map<Slot, Entry<V>>, k: Slot, db: nat): nat
    requires k in tab
  {
    if k.db == db then tab[k].mem else 0
  }

  lemma {:induction false} MemTake<V>(tab: map<Slot, Entry<V>>, k: Slot, db: nat)
    requires k in tab
    ensures MemOf(tab, db) == Share(tab, k, db) + MemOf(tab - {k}, db)
    decreases |tab|
  {
    var k0 :| k0 in tab && MemOf(tab, db) == Share(tab, k0, db) + MemOf(tab - {k0}, db);
    if k0 != k {
      var a, b := tab - {k0}, tab - {k};
      MemTake(a, k, db);
      MemTake(b, k0, db);
      assert a - {k} == b - {k0};
      assert Share(a, k, db) == Share(tab, k, db) && Share(b, k0, db) == Share(tab, k0, db);
    }
  }

  lemma MemPut<V>(tab: map<Slot, Entry<V>>, k: Slot, e: Entry<V>, db: nat)
    ensures MemOf(tab[k := e], db) ==
            MemOf(tab, db) - (if k in tab then Share(tab, k, db) else 0) + (if k.db == db then e.mem else 0)
  {
    MemTake(tab[k := e], k, db);
    assert tab[k := e] - {k} == tab - {k};
    if k in tab {
      MemTake(tab, k, db);
    } else {
      assert tab - {k} == tab;
    }
  }

  lemma {:induction false} MemOutside<V>(tab: map<Slot, Entry<V>>, gone: nat, db: nat)
    ensures MemOf(Outside(tab, gone), db) == if db == gone then 0 else MemOf(tab, db)
    decreases |tab|
  {
    var rest := Outside(tab, gone);
    if tab == map[] {
      assert rest == map[];
    } else {
      var k0 :| k0 in tab && MemOf(tab, db) == Share(tab, k0, db) + MemOf(tab - {k0}, db);
      MemOutside(tab - {k0}, gone, db);
      var rest0 := Outside(tab - {k0}, gone);
      if k0.db == gone {
        assert rest == rest0;
        assert db != gone ==> Share(tab, k0, db) == 0;
        assert MemOf(rest, db) == MemOf(rest0, db);
      } else {
        MemTake(rest, k0, db);
        assert rest - {k0} == rest0;
        assert Share(rest, k0, db) == Share(tab, k0, db);
      }
    }
  }

  function Sum(xs: seq<int>): int {
    if xs == [] then 0 else xs[0] + Sum(xs[1..])
  }

  lemma {:induction false} SumUpdate(xs: seq<int>, i: nat, x: int)
    requires i < |xs|
    ensures Sum(xs[i := x]) == Sum(xs) - xs[i] + x
  {
    if i == 0 {
      assert xs[0 := x][1..] == xs[1..];
    } else {
      assert xs[i := x][1..] == xs[1..][i - 1 := x];
      SumUpdate(xs[1..], i - 1, x);
    }
  }

  // ---------------------------------------------------------------- invariant

  /** Every DB's counter is the sum of the cached sizes of its entries, and the shard
      counter is the sum over the DBs. */
  ghost predicate MemoryExact<V>(tab: map<Slot, Entry<V>>, used: seq<int>, total: int) {
    && (forall db :: 0 <= db < |used| ==> used[db] == MemOf(tab, db))
    && total == Sum(used)
  }

  /** The expiry heap holds a matching item for every entry with a deadline. */
  ghost predicate HeapCovers<V>(tab: map<Slot, Entry<V>>, heap: multiset<ExpItem>) {
    forall k :: k in tab && tab[k].expireAt > 0 ==> ExpItem(tab[k].expireAt, k, tab[k].gen) in heap
  }

  ghost predicate InRange<V>(s: State<V>) {
    && |s.epoch| == |s.used|
    && (forall k :: k in s.tab ==> k.db < |s.used|)
    && (forall it :: it in s.heap ==> it.slot.db < |s.used| && it.at > 0)
  }

  /** A key is never both live and tombstoned. */
  ghost predicate Disjoint<V>(s: State<V>) {
    s.tab.Keys !! s.tomb.Keys
  }

  ghost predicate Inv<V>(s: State<V>) {
    InRange(s) && Disjoint(s) && MemoryExact(s.tab, s.used, s.total) && HeapCovers(s.tab, s.heap)
  }

  lemma CounterExact<V>(tab: map<Slot, Entry<V>>, used: seq<int>, total: int,
                        tab': map<Slot, Entry<V>>, db: nat, delta: int)
    requires MemoryExact(tab, used, total) && db < |used|
    requires forall d :: 0 <= d < |used| ==> MemOf(tab', d) == MemOf(tab, d) + if d == db then delta else 0
    ensures MemoryExact(tab', used[db := used[db] + delta], total + delta)
  {
    SumUpdate(used, db, used[db] + delta);
  }

  lemma TakeExact<V>(tab: map<Slot, Entry<V>>, used: seq<int>, total: int, k: Slot)
    requires MemoryExact(tab, used, total) && k in tab && k.db < |used|
    ensures var d := 0 - tab[k].mem;
            MemoryExact(tab - {k}, used[k.db := used[k.db] + d], total + d)
  {
    forall d | 0 <= d < |used|
      ensures MemOf(tab - {k}, d) == MemOf(tab, d) + if d == k.db then 0 - tab[k].mem else 0
    {
      MemTake(tab, k, d);
    }
    CounterExact(tab, used, total, tab - {k}, k.db, 0 - tab[k].mem);
  }

  lemma PutExact<V>(tab: map<Slot, Entry<V>>, used: seq<int>, total: int, k: Slot, e: Entry<V>)
    requires MemoryExact(tab, used, total) && k.db < |used|
    ensures var d := if k in tab then e.mem - tab[k].mem else e.mem;
            MemoryExact(tab[k := e], used[k.db := used[k.db] + d], total + d)
  {
    var delta := if k in tab then e.mem - tab[k].mem else e.mem;
    forall d | 0 <= d < |used|
      ensures MemOf(tab[k := e], d) == MemOf(tab, d) + if d == k.db then delta else 0
    {
      MemPut(tab, k, e, d);
    }
    CounterExact(tab, used, total, tab[k := e], k.db, delta);
  }

  lemma FlushExact<V>(tab: map<Slot, Entry<V>>, used: seq<int>, total: int, db: nat)
    requires MemoryExact(tab, used, total) && db < |used|
    ensures MemoryExact(Outside(tab, db), used[db := used[db] + (0 - used[db])], total + (0 - used[db]))
  {
    forall d | 0 <= d < |used|
      ensures MemOf(Outside(tab, db), d) == MemOf(tab, d) + if d == db then 0 - used[db] else 0
    {
      MemOutside(tab, db, d);
    }
    CounterExact(tab, used, total, Outside(tab, db), db, 0 - used[db]);
  }

  lemma TombstoneFrame<V>(c: Config<V>, s: State<V>, k: Slot, ver: nat)
    ensures var s' := Tombstone(c, s, k, ver);
            && s'.tab == s.tab && s'.used == s.used && s'.total == s.total && s'.heap == s.heap
            && |s'.epoch| == |s.epoch| && s'.tomb.Keys <= s.tomb.Keys + {k}
  {
  }

  lemma RemoveFrame<V>(c: Config<V>, s: State<V>, k: Slot)
    requires k in s.tab && k.db < |s.used|
    ensures var s', d := Remove(c, s, k), 0 - s.tab[k].mem;
            && s'.tab == s.tab - {k} && s'.heap == s.heap && s'.total == s.total + d
            && s'.used == s.used[k.db := s.used[k.db] + d]
            && |s'.epoch| == |s.epoch| && s'.tomb.Keys <= s.tomb.Keys + {k}
  {
    TombstoneFrame(c, s, k, s.tab[k].version);
  }

  lemma RemoveKeepsInv<V>(c: Config<V>, s: State<V>, k: Slot)
    requires InRange(s) && Disjoint(s) && MemoryExact(s.tab, s.used, s.total) && k in s.tab
    requires HeapCovers(s.tab - {k}, s.heap)
    ensures Inv(Remove(c, s, k))
  {
    RemoveFrame(c, s, k);
    TakenInv(s, Remove(c, s, k), k);
  }

  lemma TakenInv<V>(s: State<V>, s': State<V>, k: Slot)
    requires InRange(s) && Disjoint(s) && MemoryExact(s.tab, s.used, s.total) && k in s.tab
    requires HeapCovers(s.tab - {k}, s.heap)
    requires var d := 0 - s.tab[k].mem;
             && s'.tab == s.tab - {k} && s'.heap == s.heap && s'.total == s.total + d
             && s'.used == s.used[k.db := s.used[k.db] + d]
             && |s'.epoch| == |s.epoch| && s'.tomb.Keys <= s.tomb.Keys + {k}
    ensures Inv(s')
  {
    TakeExact(s.tab, s.used, s.total, k);
  }

  /** Store and Touch: everything but the coverage of the key itself. */
  lemma PutKeepsInv<V>(s: State<V>, s': State<V>, k: Slot, e: Entry<V>)
    requires Inv(s) && k.db < |s.used|
    requires var d := if k in s.tab then e.mem - s.tab[k].mem else e.mem;
             s' == State(s.tab[k := e], s.tomb - {k}, s.epoch, s.used[k.db := s.used[k.db] + d], s.total + d, s.heap)
    ensures InRange(s') && Disjoint(s') && MemoryExact(s'.tab, s'.used, s'.total)
    ensures e.expireAt <= 0 || ExpItem(e.expireAt, k, e.gen) in s.heap ==> Inv(s')
    ensures HeapCovers(s'.tab - {k}, s'.heap)
  {
    PutExact(s.tab, s.used, s.total, k, e);
  }

  /** Changing an entry and leaving its cached size alone. */
  lemma RelabelKeepsInv<V>(s: State<V>, k: Slot, e: Entry<V>, heap: multiset<ExpItem>)
    requires InRange(s) && Disjoint(s) && MemoryExact(s.tab, s.used, s.total) && k in s.tab
    requires HeapCovers(s.tab - {k}, s.heap) && s.heap <= heap && e.mem == s.tab[k].mem
    requires forall it :: it in heap ==> it in s.heap || (it.slot == k && it.at > 0)
    requires e.expireAt <= 0 || ExpItem(e.expireAt, k, e.gen) in heap
    ensures Inv(s.(tab := s.tab[k := e], heap := heap))
  {
    var s' := s.(tab := s.tab[k := e], heap := heap);
    PutExact(s.tab, s.used, s.total, k, e);
    assert s.used[k.db := s.used[k.db] + (e.mem - s.tab[k].mem)] == s.used;
    forall j | j in s'.tab && s'.tab[j].expireAt > 0
      ensures ExpItem(s'.tab[j].expireAt, j, s'.tab[j].gen) in heap
    {
      if j != k { assert (s.tab - {k})[j] == s'.tab[j]; }
    }
  }

  lemma StoreKeepsInv<V>(c: Config<V>, s: State<V>, op: Op<V>)
    requires Inv(s) && Legal(s, op) && (op.Write? || op.WriteKeep?)
    ensures Inv(Apply(c, s, op))
  {
    var s' := Apply(c, s, op);
    PutKeepsInv(s, s', op.k, s'.tab[op.k]);
  }

  lemma FilledKeepsInv<V>(c: Config<V>, s: State<V>, k: Slot, stored: V, v: V)
    requires Inv(s) && Legal(s, WriteFilled(k, stored, v))
    ensures Inv(Apply(c, s, WriteFilled(k, stored, v)))
  {
    var s1 := Store(c, s, k, stored, 0, 0);
    PutKeepsInv(s, s1, k, s1.tab[k]);
    RelabelKeepsInv(s1, k, s1.tab[k].(value := v), s1.heap);
  }

  lemma PushKeepsInv<V>(s: State<V>, k: Slot)
    requires InRange(s) && Disjoint(s) && MemoryExact(s.tab, s.used, s.total) && k in s.tab
    requires HeapCovers(s.tab - {k}, s.heap) && s.tab[k].expireAt > 0
    ensures Inv(PushExpire(s, k))
  {
    var e := s.tab[k].(gen := s.tab[k].gen + 1);
    RelabelKeepsInv(s, k, e, s.heap + multiset{ExpItem(e.expireAt, k, e.gen)});
  }

  lemma UntilKeepsInv<V>(c: Config<V>, s: State<V>, k: Slot, v: V, at: int)
    requires Inv(s) && Legal(s, WriteUntil(k, v, at))
    ensures Inv(Apply(c, s, WriteUntil(k, v, at)))
  {
    var s1 := Store(c, s, k, v, at, 0);
    PutKeepsInv(s, s1, k, s1.tab[k]);
    PushKeepsInv(s1, k);
  }

  lemma TouchFrame<V>(c: Config<V>, s: State<V>, k: Slot, v: V, at: int)
    requires Inv(s) && k in s.tab
    ensures var s1 := Touch(c, s, k, v, at);
            && InRange(s1) && Disjoint(s1) && MemoryExact(s1.tab, s1.used, s1.total)
            && HeapCovers(s1.tab - {k}, s1.heap)
            && (at <= 0 || ExpItem(at, k, s.tab[k].gen) in s.heap ==> Inv(s1))
  {
    var s1 := Touch(c, s, k, v, at);
    assert s.tomb - {k} == s.tomb;
    PutKeepsInv(s, s1, k, s1.tab[k]);
  }

  lemma TouchKeepsInv<V>(c: Config<V>, s: State<V>, op: Op<V>)
    requires Inv(s) && Legal(s, op)
    requires op.Mutate? || op.Persist? || op.ExpireAt?
    ensures Inv(Apply(c, s, op))
  {
    var e := s.tab[op.k];
    match op
    case Mutate(k, v) => TouchFrame(c, s, k, v, e.expireAt);
    case Persist(k) => TouchFrame(c, s, k, e.value, 0);
    case ExpireAt(k, at) =>
      TouchFrame(c, s, k, e.value, at);
      PushKeepsInv(Touch(c, s, k, e.value, at), k);
  }

  lemma PopKeepsInv<V>(c: Config<V>, s: State<V>, it: ExpItem)
    requires Inv(s) && Legal(s, PopItem(it))
    ensures Inv(Apply(c, s, PopItem(it)))
  {
    var s1 := s.(heap := s.heap - multiset{it});
    assert forall x :: x in s.heap && x != it ==> x in s1.heap;
    if Matches(s1, it) {
      RemoveKeepsInv(c, s1, it.slot);
    }
  }

  lemma FlushKeepsInv<V>(s: State<V>, db: nat)
    requires Inv(s) && db < |s.used| && db < |s.epoch|
    ensures Inv(FlushDB(s, db))
  {
    FlushExact(s.tab, s.used, s.total, db);
    var s' := FlushDB(s, db);
    assert forall it :: it in s'.heap ==> it in s.heap;
  }

  /** Reading and deleting a key either leave the state alone or remove the key. */
  lemma LookupCases<V>(c: Config<V>, s: State<V>, op: Op<V>)
    requires Legal(s, op) && (op.Read? || op.Delete?)
    ensures Apply(c, s, op) == s || (op.k in s.tab && Apply(c, s, op) == Remove(c, s, op.k))
  {
    if op.k in s.tab { RemoveFrame(c, s, op.k); }
  }

  lemma LookupKeepsInv<V>(c: Config<V>, s: State<V>, op: Op<V>)
    requires Inv(s) && Legal(s, op) && (op.Read? || op.Delete?)
    ensures Inv(Apply(c, s, op))
  {
    LookupCases(c, s, op);
    if op.k in s.tab { RemoveKeepsInv(c, s, op.k); }
  }

  lemma ApplyKeepsInv<V>(c: Config<V>, s: State<V>, op: Op<V>)
    requires Inv(s) && Legal(s, op)
    ensures Inv(Apply(c, s, op))
  {
    match op
    case Write(_, _) => StoreKeepsInv(c, s, op);
    case WriteKeep(_, _) => StoreKeepsInv(c, s, op);
    case WriteFilled(k, stored, v) => FilledKeepsInv(c, s, k, stored, v);
    case WriteUntil(k, v, at) => UntilKeepsInv(c, s, k, v, at);
    case Mutate(_, _) => TouchKeepsInv(c, s, op);
    case Persist(_) => TouchKeepsInv(c, s, op);
    case ExpireAt(_, _) => TouchKeepsInv(c, s, op);
    case PopItem(it) => PopKeepsInv(c, s, it);
    case Flush(db) => FlushKeepsInv(s, db);
    case Read(_, _) => LookupKeepsInv(c, s, op);
    case Delete(_, _) => LookupKeepsInv(c, s, op);
    case Evict(k) => RemoveKeepsInv(c, s, k);
  }

  /** Memory accounting, expiry coverage and version bookkeeping hold after every
      sequence of operations on a shard. */
  lemma {:induction false} RunKeepsInv<V>(c: Config<V>, s: State<V>, ops: seq<Op<V>>)
    requires Inv(s) && CanRun(c, s, ops)
    ensures Inv(Run(c, s, ops))
    decreases |ops|
  {
    if ops != [] {
      ApplyKeepsInv(c, s, ops[0]);
      RunKeepsInv(c, Apply(c, s, ops[0]), ops[1..]);
    }
  }

  // -------------------------------------------------- how current the counters are

  /** Every cached size is the estimate of the value the entry holds now. */
  ghost predicate SizesCurrent<V>(c: Config<V>, s: State<V>) {
    forall k :: k in s.tab ==> s.tab[k].mem == EntryMem(c, k, s.tab[k].value)
  }

  lemma RemovalKeepsSizes<V>(c: Config<V>, s: State<V>, op: Op<V>)
    requires Legal(s, op) && SizesCurrent(c, s)
    requires op.Read? || op.Delete? || op.Evict? || op.PopItem? || op.Flush?
    ensures SizesCurrent(c, Apply(c, s, op))
  {
    if op.PopItem? {
      var s1 := s.(heap := s.heap - multiset{op.item});
      if Matches(s1, op.item) { RemoveFrame(c, s1, op.item.slot); }
    } else if op.Evict? {
      RemoveFrame(c, s, op.k);
    } else if op.Read? || op.Delete? {
      LookupCases(c, s, op);
      if op.k in s.tab { RemoveFrame(c, s, op.k); }
    }
  }

  lemma WritesKeepSizes<V>(c: Config<V>, s: State<V>, op: Op<V>)
    requires Legal(s, op) && SizesCurrent(c, s)
    requires !(op.Read? || op.Delete? || op.Evict? || op.PopItem? || op.Flush? || op.WriteFilled?)
    ensures SizesCurrent(c, Apply(c, s, op))
  {
  }

  /** A push to a missing list (or an SADD, HSET or ZADD creating its key) stores the
      empty collection, caches that size and fills it with no Touch.  This is the one
      operation that can leave a cached size behind the value, and it does so exactly
      when filling changed the estimate. */
  lemma SizesStayCurrent<V>(c: Config<V>, s: State<V>, op: Op<V>)
    requires Legal(s, op) && SizesCurrent(c, s)
    ensures SizesCurrent(c, Apply(c, s, op)) <==>
            !(op.WriteFilled? && c.usage(op.stored) != c.usage(op.v))
  {
    if op.WriteFilled? {
      assert op.k in Apply(c, s, op).tab;
    } else if op.Read? || op.Delete? || op.Evict? || op.PopItem? || op.Flush? {
      RemovalKeepsSizes(c, s, op);
    } else {
      WritesKeepSizes(c, s, op);
    }
  }

  // --------------------------------------------------------- what the table then holds

  /** The key holds this value with this deadline, and its size is accounted as such. */
  ghost predicate Holds<V>(c: Config<V>, s: State<V>, k: Slot, v: V, at: int) {
    k in s.tab && s.tab[k].value == v && s.tab[k].expireAt == at && s.tab[k].mem == |k.key| + 80 + c.usage(v)
  }

  /** Every other key has the entry it had. */
  ghost predicate OthersKept<V>(s: State<V>, s': State<V>, k: Slot) {
    s'.tab - {k} == s.tab - {k}
  }

  /** A deadline that has passed. */
  predicate Past(at: int, now: int) {
    0 < at && at <= now
  }

  /** The key is gone if the condition holds, and all is as it was otherwise. */
  ghost predicate GoneIf<V>(s: State<V>, s': State<V>, k: Slot, gone: bool) {
    s'.tab == if gone then s.tab - {k} else s.tab
  }

  /** What the table holds after each operation: the value that was written, with the
      deadline that was asked for, kept or dropped; and keys go only when they are deleted,
      evicted, flushed or past their deadline. */
  lemma TableAfter<V>(c: Config<V>, s: State<V>, op: Op<V>)
    requires Legal(s, op)
    ensures var s' := Apply(c, s, op);
            match op
            case Write(k, v) => Holds(c, s', k, v, 0) && OthersKept(s, s', k)
            case WriteFilled(k, _, v) =>
              k in s'.tab && s'.tab[k].value == v && s'.tab[k].expireAt == 0 && OthersKept(s, s', k)
            case WriteUntil(k, v, at) => Holds(c, s', k, v, at) && OthersKept(s, s', k)
            case WriteKeep(k, v) =>
              Holds(c, s', k, v, s.tab[k].expireAt) && OthersKept(s, s', k) && s'.tab[k].gen == s.tab[k].gen
            case Mutate(k, v) => Holds(c, s', k, v, s.tab[k].expireAt) && OthersKept(s, s', k)
            case Persist(k) => Holds(c, s', k, s.tab[k].value, 0) && OthersKept(s, s', k)
            case ExpireAt(k, at) =>
              Holds(c, s', k, s.tab[k].value, at) && OthersKept(s, s', k) && s'.tab[k].gen == s.tab[k].gen + 1
            case Read(now, k) => GoneIf(s, s', k, k in s.tab && Past(s.tab[k].expireAt, now))
            case Delete(_, k) => s'.tab == s.tab - {k}
            case Evict(k) => s'.tab == s.tab - {k}
            case PopItem(it) =>
              GoneIf(s, s', it.slot, it.slot in s.tab && s.tab[it.slot].expireAt == it.at
                                     && s.tab[it.slot].gen == it.gen)
            case Flush(db) =>
              && (forall k: Slot :: if k.db == db then k !in s'.tab else At(s'.tab, k) == At(s.tab, k))
              && (forall k: Slot :: if k.db == db then k !in s'.tomb else At(s'.tomb, k) == At(s.tomb, k))
              && (forall it: ExpItem :: s'.heap[it] == if it.slot.db == db then 0 else s.heap[it])
  {
    hide Tombstone, AddMem;
    if op.Delete? || op.Read? {
      if op.k in s.tab { RemoveFrame(c, s, op.k); }
      if op.Delete? && op.k !in s.tab { assert s.tab - {op.k} == s.tab; }
    } else if op.Evict? {
      RemoveFrame(c, s, op.k);
    } else if op.PopItem? {
      PoppedTable(c, s, op.item);
    } else if !op.Flush? {
      WrittenTable(c, s, op);
    } else {
      FlushedTable(s, op.db);
    }
  }

  lemma PoppedTable<V>(c: Config<V>, s: State<V>, it: ExpItem)
    requires Legal(s, PopItem(it))
    ensures Apply(c, s, PopItem(it)).tab == if Matches(s, it) then s.tab - {it.slot} else s.tab
  {
    var s1 := s.(heap := s.heap - multiset{it});
    if Matches(s1, it) { RemoveFrame(c, s1, it.slot); }
  }

  lemma FlushedTable<V>(s: State<V>, db: nat)
    requires db < |s.used| && db < |s.epoch|
    ensures var s' := FlushDB(s, db);
            && (forall k: Slot :: if k.db == db then k !in s'.tab else At(s'.tab, k) == At(s.tab, k))
            && (forall k: Slot :: if k.db == db then k !in s'.tomb else At(s'.tomb, k) == At(s.tomb, k))
            && (forall it: ExpItem :: s'.heap[it] == if it.slot.db == db then 0 else s.heap[it])
  {
  }

  lemma WrittenTable<V>(c: Config<V>, s: State<V>, op: Op<V>)
    requires Legal(s, op)
    requires !(op.Read? || op.Delete? || op.Evict? || op.PopItem? || op.Flush?)
    ensures var s', k := Apply(c, s, op), op.k;
            && k in s'.tab && OthersKept(s, s', k)
            && (if op.Persist? || op.ExpireAt? then s'.tab[k].value == s.tab[k].value else s'.tab[k].value == op.v)
            && (if op.WriteUntil? || op.ExpireAt? then s'.tab[k].expireAt == op.at
                else if op.WriteKeep? || op.Mutate? then s'.tab[k].expireAt == s.tab[k].expireAt
                else s'.tab[k].expireAt == 0)
            && (!op.WriteFilled? ==> s'.tab[k].mem == |k.key| + 80 + c.usage(s'.tab[k].value))
            && (op.WriteKeep? ==> s'.tab[k].gen == s.tab[k].gen)
            && (op.ExpireAt? ==> s'.tab[k].gen == s.tab[k].gen + 1)
  {
  }

  // ------------------------------------------------------- the tombstones stay bounded

  /** The tombstone map never grows beyond its bound. */
  ghost predicate Bounded<V>(c: Config<V>, s: State<V>) {
    |s.tomb| <= c.tombCap || |s.tomb| <= 1
  }

  lemma TombstoneBounded<V>(c: Config<V>, s: State<V>, k: Slot, ver: nat)
    requires Bounded(c, s)
    ensures Bounded(c, Tombstone(c, s, k, ver))
  {
    var t := s.tomb[k := ver + 1];
    assert t.Keys == s.tomb.Keys + {k};
    assert |t| <= |s.tomb| + 1;
    assert (map[k := ver + 1]).Keys == {k};
  }

  lemma RemoveBounded<V>(c: Config<V>, s: State<V>, k: Slot)
    requires Bounded(c, s) && k in s.tab && k.db < |s.used|
    ensures Bounded(c, Remove(c, s, k))
  {
    hide Tombstone;
    TombstoneBounded(c, s, k, s.tab[k].version);
  }

  lemma FewerBounded<V>(c: Config<V>, s: State<V>, s': State<V>)
    requires Bounded(c, s) && s'.tomb.Keys <= s.tomb.Keys
    ensures Bounded(c, s')
  {
    Subset(s'.tomb.Keys, s.tomb.Keys);
    assert |s'.tomb.Keys| == |s'.tomb| && |s.tomb.Keys| == |s.tomb|;
  }

  lemma Subset(a: set<Slot>, b: set<Slot>)
    requires a <= b
    ensures |a| <= |b|
  {
    assert b == a + (b - a);
  }

  lemma TombsStayBounded<V>(c: Config<V>, s: State<V>, op: Op<V>)
    requires Legal(s, op) && Bounded(c, s)
    ensures Bounded(c, Apply(c, s, op))
  {
    hide Remove, Bounded, Store, Touch, PushExpire, FlushDB;
    match op
    case Read(now, k) => if k in s.tab { RemoveBounded(c, s, k); }
    case Delete(now, k) => if k in s.tab { RemoveBounded(c, s, k); RemoveFrame(c, s, k); }
    case Evict(k) => RemoveBounded(c, s, k);
    case PopItem(it) =>
      var s1 := s.(heap := s.heap - multiset{it});
      FewerBounded(c, s, s1);
      if Matches(s1, it) { RemoveBounded(c, s1, it.slot); }
    case _ => FewerTombs(c, s, op); FewerBounded(c, s, Apply(c, s, op));
  }

  lemma FewerTombs<V>(c: Config<V>, s: State<V>, op: Op<V>)
    requires Legal(s, op) && !(op.Read? || op.Delete? || op.Evict? || op.PopItem?)
    ensures Apply(c, s, op).tomb.Keys <= s.tomb.Keys
  {
  }
}
