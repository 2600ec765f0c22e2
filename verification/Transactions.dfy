/**
 WATCH, MULTI and EXEC (lib/commands/tx.go) over the shard state of `Keyspace`.

 The first half shows that the version and epoch sample of WATCH is exact: the check
 made by EXEC passes if and only if nothing has disturbed the key in between.  The
 second half is the connection's transaction state and the EXEC command itself.
 */
module Transactions {
  import opened Basics
  import opened Keyspace

  // ------------------------------------------------------ what disturbs a key

  /** The operation writes the key, or takes it out of the table. */
  predicate Hits<V>(s: State<V>, op: Op<V>, k: Slot) {
    match op
    case Read(now, j) => j == k && k in s.tab && Due(s.tab[k], now)
    case Delete(_, j) => j == k && k in s.tab
    case PopItem(it) => it.slot == k && Matches(s, it)
    case Flush(db) => db == k.db
    case _ => op.k == k
  }

  /** ... or invalidates every watcher of the DB: a flush, or a full tombstone map. */
  predicate Disturbs<V>(c: Config<V>, s: State<V>, op: Op<V>, k: Slot) {
    Hits(s, op, k) || Overflows(c, s, op)
  }

  /** The operation leaves a tombstone while the map is at its bound. */
  predicate Overflows<V>(c: Config<V>, s: State<V>, op: Op<V>) {
    |s.tomb| >= c.tombCap &&
    match op
    case Read(now, j) => j in s.tab && Due(s.tab[j], now)
    case Delete(_, j) => j in s.tab
    case Evict(_) => true
    case PopItem(it) => Matches(s, it)
    case _ => false
  }

  ghost predicate SameEntry<V>(s: State<V>, s': State<V>, k: Slot) {
    (k in s.tab <==> k in s'.tab) && (k in s.tab ==> s.tab[k] == s'.tab[k])
  }

  /** One operation, seen by a watcher of k. */
  ghost predicate WatchStep<V>(s: State<V>, s': State<V>, k: Slot, disturbed: bool)
    requires k.db < |s.epoch| && k.db < |s'.epoch|
  {
    && s.epoch[k.db] <= s'.epoch[k.db]
    && (s'.epoch[k.db] == s.epoch[k.db] ==> Ver(s, k) <= Ver(s', k))
    && (disturbed ==> s'.epoch[k.db] > s.epoch[k.db] || Ver(s', k) > Ver(s, k))
    && (!disturbed ==> s'.epoch[k.db] == s.epoch[k.db] && Ver(s', k) == Ver(s, k) && SameEntry(s, s', k))
  }

  lemma RemoveWatch<V>(c: Config<V>, s: State<V>, j: Slot, k: Slot)
    requires j in s.tab && j.db < |s.used| && k.db < |s.epoch|
    ensures |Remove(c, s, j).epoch| == |s.epoch|
    ensures WatchStep(s, Remove(c, s, j), k, j == k || |s.tomb| >= c.tombCap)
  {
  }

  lemma PutWatch<V>(c: Config<V>, s: State<V>, op: Op<V>, k: Slot)
    requires Inv(s) && Legal(s, op) && k.db < |s.epoch|
    requires op.Write? || op.WriteFilled? || op.WriteUntil? || op.WriteKeep?
    ensures Apply(c, s, op).epoch == s.epoch
    ensures WatchStep(s, Apply(c, s, op), k, Disturbs(c, s, op, k))
  {
  }

  lemma TouchWatch<V>(c: Config<V>, s: State<V>, op: Op<V>, k: Slot)
    requires Inv(s) && Legal(s, op) && k.db < |s.epoch|
    requires op.Mutate? || op.Persist? || op.ExpireAt?
    ensures Apply(c, s, op).epoch == s.epoch
    ensures WatchStep(s, Apply(c, s, op), k, Disturbs(c, s, op, k))
  {
  }

  lemma FlushWatch<V>(s: State<V>, db: nat, k: Slot)
    requires Inv(s) && db < |s.used| && k.db < |s.epoch|
    ensures |FlushDB(s, db).epoch| == |s.epoch|
    ensures WatchStep(s, FlushDB(s, db), k, db == k.db)
  {
  }

  lemma ReadWatch<V>(c: Config<V>, s: State<V>, now: int, j: Slot, k: Slot)
    requires Inv(s) && j.db < |s.used| && k.db < |s.epoch|
    ensures |Lookup(c, s, now, j).epoch| == |s.epoch|
    ensures WatchStep(s, Lookup(c, s, now, j), k, Disturbs(c, s, Read(now, j), k))
  {
    if j in s.tab { RemoveWatch(c, s, j, k); }
  }

  lemma PopWatch<V>(c: Config<V>, s: State<V>, it: ExpItem, k: Slot)
    requires Inv(s) && Legal(s, PopItem(it)) && k.db < |s.epoch|
    ensures |Apply(c, s, PopItem(it)).epoch| == |s.epoch|
    ensures WatchStep(s, Apply(c, s, PopItem(it)), k, Disturbs(c, s, PopItem(it), k))
  {
    hide Inv, Remove;
    var s1 := s.(heap := s.heap - multiset{it});
    if Matches(s1, it) {
      RemoveWatch(c, s1, it.slot, k);
    }
  }

  lemma DeleteWatch<V>(c: Config<V>, s: State<V>, now: int, j: Slot, k: Slot)
    requires Inv(s) && j.db < |s.used| && k.db < |s.epoch|
    ensures |Apply(c, s, Delete(now, j)).epoch| == |s.epoch|
    ensures WatchStep(s, Apply(c, s, Delete(now, j)), k, Disturbs(c, s, Delete(now, j), k))
  {
    if j in s.tab {
      RemoveWatch(c, s, j, k);
      assert Apply(c, s, Delete(now, j)) == Remove(c, s, j);
    }
  }

  /** Every operation either leaves the watched entry, its version and the epoch
      alone, or moves the (epoch, version) pair strictly up. */
  lemma StepWatch<V>(c: Config<V>, s: State<V>, op: Op<V>, k: Slot)
    requires Inv(s) && Legal(s, op) && k.db < |s.epoch|
    ensures |Apply(c, s, op).epoch| == |s.epoch|
    ensures WatchStep(s, Apply(c, s, op), k, Disturbs(c, s, op, k))
  {
    var s' := Apply(c, s, op);
    match op
    case Read(now, j) => ReadWatch(c, s, now, j, k);
    case Evict(j) => RemoveWatch(c, s, j, k);
    case Delete(now, j) => DeleteWatch(c, s, now, j, k);
    case PopItem(it) => PopWatch(c, s, it, k);
    case Flush(db) => FlushWatch(s, db, k);
    case Mutate(_, _) => TouchWatch(c, s, op, k);
    case Persist(_) => TouchWatch(c, s, op, k);
    case ExpireAt(_, _) => TouchWatch(c, s, op, k);
    case Write(_, _) => PutWatch(c, s, op, k);
    case WriteFilled(_, _, _) => PutWatch(c, s, op, k);
    case WriteUntil(_, _, _) => PutWatch(c, s, op, k);
    case WriteKeep(_, _) => PutWatch(c, s, op, k);
  }

  // ------------------------------------------------------------ engine runs

  /** One operation of one shard; a run of the engine interleaves the shards freely. */
  datatype Event<V> = On(shard: nat, op: Op<V>)

  ghost predicate EngineInv<V>(e: seq<State<V>>) {
    forall i :: 0 <= i < |e| ==> Inv(e[i])
  }

  ghost predicate CanHappen<V>(c: Config<V>, e: seq<State<V>>, evs: seq<Event<V>>)
    decreases |evs|
  {
    evs == [] ||
    (evs[0].shard < |e| && Legal(e[evs[0].shard], evs[0].op) && CanHappen(c, Step(c, e, evs[0]), evs[1..]))
  }

  ghost function Step<V>(c: Config<V>, e: seq<State<V>>, ev: Event<V>): seq<State<V>>
    requires ev.shard < |e| && Legal(e[ev.shard], ev.op)
  {
    e[ev.shard := Apply(c, e[ev.shard], ev.op)]
  }

  ghost function After<V>(c: Config<V>, e: seq<State<V>>, evs: seq<Event<V>>): seq<State<V>>
    requires CanHappen(c, e, evs)
    decreases |evs|
  {
    if evs == [] then e else After(c, Step(c, e, evs[0]), evs[1..])
  }

  /** No event of the run disturbs key k of shard i. */
  ghost predicate Undisturbed<V>(c: Config<V>, e: seq<State<V>>, evs: seq<Event<V>>, i: nat, k: Slot)
    requires CanHappen(c, e, evs)
    decreases |evs|
  {
    evs == [] ||
    (!(evs[0].shard == i && Disturbs(c, e[i], evs[0].op, k)) &&
     Undisturbed(c, Step(c, e, evs[0]), evs[1..], i, k))
  }

  lemma StepKeepsEngineInv<V>(c: Config<V>, e: seq<State<V>>, ev: Event<V>)
    requires EngineInv(e) && ev.shard < |e| && Legal(e[ev.shard], ev.op)
    ensures EngineInv(Step(c, e, ev))
  {
    ApplyKeepsInv(c, e[ev.shard], ev.op);
  }

  /** The (epoch, version) pair of a watched key after a whole run: it is the one
      sampled before if and only if no event disturbed the key. */
  lemma {:induction false} RunWatch<V>(c: Config<V>, e: seq<State<V>>, evs: seq<Event<V>>, i: nat, k: Slot)
    requires EngineInv(e) && CanHappen(c, e, evs) && i < |e| && k.db < |e[i].epoch|
    ensures var e' := After(c, e, evs);
            && EngineInv(e') && |e'| == |e| && |e'[i].epoch| == |e[i].epoch|
            && e[i].epoch[k.db] <= e'[i].epoch[k.db]
            && (e'[i].epoch[k.db] == e[i].epoch[k.db] ==> Ver(e[i], k) <= Ver(e'[i], k))
            && (Undisturbed(c, e, evs, i, k) <==>
                  e'[i].epoch[k.db] == e[i].epoch[k.db] && Ver(e'[i], k) == Ver(e[i], k))
            && (Undisturbed(c, e, evs, i, k) ==> SameEntry(e[i], e'[i], k))
    decreases |evs|
  {
    if evs != [] {
      var ev := evs[0];
      StepKeepsEngineInv(c, e, ev);
      if ev.shard == i {
        StepWatch(c, e[i], ev.op, k);
      }
      RunWatch(c, Step(c, e, ev), evs[1..], i, k);
    }
  }

  // ------------------------------------------------------------------- WATCH

  datatype WatchRef = WatchRef(shard: nat, slot: Slot, epoch: nat, ver: nat)

  predicate RefOk<V>(e: seq<State<V>>, w: WatchRef) {
    w.shard < |e| && w.slot.db < |e[w.shard].epoch| == |e[w.shard].used|
  }

  /** `WatchVersion`: passive expiry, then the sample. */
  function WatchVersion<V>(c: Config<V>, s: State<V>, now: int, k: Slot): (r: (State<V>, nat, nat))
    requires k.db < |s.epoch| == |s.used|
    ensures |r.0.epoch| == |s.epoch| && |r.0.used| == |s.used|
  {
    var s1 := Lookup(c, s, now, k);
    (s1, s1.epoch[k.db], Ver(s1, k))
  }

  /** `WatchDirty`: the epoch is compared first, then the version after passive expiry. */
  function WatchDirty<V>(c: Config<V>, s: State<V>, now: int, w: WatchRef): (r: (State<V>, bool))
    requires w.slot.db < |s.epoch| == |s.used|
    ensures |r.0.epoch| == |s.epoch| && |r.0.used| == |s.used|
  {
    if w.epoch != s.epoch[w.slot.db] then (s, true)
    else
      var s1 := Lookup(c, s, now, w.slot);
      (s1, Ver(s1, w.slot) != w.ver)
  }

  /** The key is dirty exactly when some event since the sample disturbed it, or its
      deadline has passed by now; a clean check has no side effect, and the entry is
      the very one that was sampled. */
  lemma WatchIsExact<V>(c: Config<V>, e: seq<State<V>>, evs: seq<Event<V>>, w: WatchRef, now: int)
    requires EngineInv(e) && CanHappen(c, e, evs) && RefOk(e, w)
    requires w.epoch == e[w.shard].epoch[w.slot.db] && w.ver == Ver(e[w.shard], w.slot)
    ensures var e' := After(c, e, evs);
            && RefOk(e', w)
            && var r := WatchDirty(c, e'[w.shard], now, w);
               && (r.1 <==> !Undisturbed(c, e, evs, w.shard, w.slot) ||
                            (w.slot in e'[w.shard].tab && Due(e'[w.shard].tab[w.slot], now)))
               && (!r.1 ==> r.0 == e'[w.shard] && SameEntry(e[w.shard], e'[w.shard], w.slot))
  {
    RunWatch(c, e, evs, w.shard, w.slot);
    var s := After(c, e, evs)[w.shard];
    assert Inv(s);
    ReadWatch(c, s, now, w.slot, w.slot);
  }

  // -------------------------------------------------------------------- EXEC

  ghost predicate RefsOk<V>(e: seq<State<V>>, ws: seq<WatchRef>) {
    forall j :: 0 <= j < |ws| ==> RefOk(e, ws[j])
  }

  /** The dirty check of EXEC: the watched keys in order, stopping at the first dirty one. */
  ghost function CheckAll<V>(c: Config<V>, e: seq<State<V>>, now: int, ws: seq<WatchRef>): (seq<State<V>>, bool)
    requires RefsOk(e, ws)
    decreases |ws|
  {
    if ws == [] then (e, false)
    else
      var (s, dirty) := WatchDirty(c, e[ws[0].shard], now, ws[0]);
      if dirty then (e[ws[0].shard := s], true)
      else CheckAll(c, e[ws[0].shard := s], now, ws[1..])
  }

  /** The queued commands one after the other; a handler's error is one of its replies. */
  function RunQueue<E, C, R>(e: E, queue: seq<C>, handler: (E, C) -> (E, R)): (E, seq<R>)
    decreases |queue|
  {
    if queue == [] then (e, [])
    else
      var (e1, r) := handler(e, queue[0]);
      var (e2, rs) := RunQueue(e1, queue[1..], handler);
      (e2, [r] + rs)
  }

  lemma {:induction false} RunQueueSnoc<E, C, R>(e: E, queue: seq<C>, cmd: C, handler: (E, C) -> (E, R))
    ensures var r := RunQueue(e, queue, handler);
            RunQueue(e, queue + [cmd], handler) == (handler(r.0, cmd).0, r.1 + [handler(r.0, cmd).1])
    decreases |queue|
  {
    if queue == [] {
      assert queue + [cmd] == [cmd];
      assert RunQueue(handler(e, cmd).0, [cmd][1..], handler) == (handler(e, cmd).0, []);
      assert [] + [handler(e, cmd).1] == [handler(e, cmd).1] + [];
    } else {
      var q := queue + [cmd];
      assert q[0] == queue[0] && q[1..] == queue[1..] + [cmd];
      var e1, r1 := handler(e, queue[0]).0, handler(e, queue[0]).1;
      RunQueueSnoc(e1, queue[1..], cmd, handler);
      var r := RunQueue(e1, queue[1..], handler);
      assert RunQueue(e, q, handler).1 == [r1] + (r.1 + [handler(r.0, cmd).1]);
      assert RunQueue(e, queue, handler).1 == [r1] + r.1;
      assert [r1] + (r.1 + [handler(r.0, cmd).1]) == ([r1] + r.1) + [handler(r.0, cmd).1];
    }
  }

  /** The sample is not from the future: true of every WATCH sample, whatever has
      happened since (`RunWatch`). */
  predicate Sampled<V>(e: seq<State<V>>, w: WatchRef) {
    RefOk(e, w) && (w.epoch == e[w.shard].epoch[w.slot.db] ==> w.ver <= Ver(e[w.shard], w.slot))
  }

  /** A check that comes out clean has expired nothing. */
  lemma CleanCheckReadsOnly<V>(c: Config<V>, e: seq<State<V>>, now: int, w: WatchRef)
    requires Sampled(e, w) && !WatchDirty(c, e[w.shard], now, w).1
    ensures WatchDirty(c, e[w.shard], now, w).0 == e[w.shard]
  {
  }

  lemma {:induction false} CheckAllClean<V>(c: Config<V>, e: seq<State<V>>, now: int, ws: seq<WatchRef>)
    requires RefsOk(e, ws) && !CheckAll(c, e, now, ws).1
    requires forall j :: 0 <= j < |ws| ==> Sampled(e, ws[j])
    ensures CheckAll(c, e, now, ws).0 == e
    ensures forall j :: 0 <= j < |ws| ==> !WatchDirty(c, e[ws[j].shard], now, ws[j]).1
    decreases |ws|
  {
    if ws != [] {
      var w := ws[0];
      assert !WatchDirty(c, e[w.shard], now, w).1;
      CleanCheckReadsOnly(c, e, now, w);
      assert e[w.shard := e[w.shard]] == e;
      CheckAllClean(c, e, now, ws[1..]);
      forall j | 0 <= j < |ws| ensures !WatchDirty(c, e[ws[j].shard], now, ws[j]).1 {
        if j > 0 { assert ws[j] == ws[1..][j - 1]; }
      }
    }
  }

  /** The reply of EXEC. */
  datatype ExecReply<R> = BadArity | NoMulti | QueueAbort | Null | Replies(rs: seq<R>)

  class Engine<V> {
    const cfg: Config<V>
    var shards: seq<State<V>>

    constructor (cfg: Config<V>, shards: seq<State<V>>)
      ensures this.cfg == cfg && this.shards == shards
    {
      this.cfg, this.shards := cfg, shards;
    }
  }

  /** The engine after passive expiry of these keys, one after the other. */
  function Expired<V>(c: Config<V>, e: seq<State<V>>, now: int, keys: seq<(nat, Slot)>): (r: seq<State<V>>)
    requires KeysOk(e, keys)
    ensures |r| == |e|
    ensures forall i :: 0 <= i < |e| ==> |r[i].epoch| == |e[i].epoch| && |r[i].used| == |e[i].used|
    decreases |keys|
  {
    if keys == [] then e
    else
      var front, (sh, k) := keys[..|keys| - 1], keys[|keys| - 1];
      var e' := Expired(c, e, now, front);
      e'[sh := Lookup(c, e'[sh], now, k)]
  }

  /** The sample names the key and its shard, and holds the DB's epoch and the key's version
      in this state. */
  predicate IsSample<V>(e: seq<State<V>>, key: (nat, Slot), w: WatchRef) {
    && w.shard == key.0 < |e| && w.slot == key.1 && w.slot.db < |e[w.shard].epoch| == |e[w.shard].used|
    && w.epoch == e[w.shard].epoch[w.slot.db] && w.ver == Ver(e[w.shard], w.slot)
  }

  /** One sample per key, in order, each of the state that passive expiry of the keys up to
      this one has left. */
  ghost predicate Samples<V>(c: Config<V>, e: seq<State<V>>, now: int, keys: seq<(nat, Slot)>, ws: seq<WatchRef>)
    requires KeysOk(e, keys)
  {
    |ws| == |keys| &&
    forall j :: 0 <= j < |keys| ==> IsSample(Expired(c, e, now, keys[..j + 1]), keys[j], ws[j])
  }

  lemma NoSamples<V>(c: Config<V>, e: seq<State<V>>, now: int, keys: seq<(nat, Slot)>)
    requires KeysOk(e, keys)
    ensures KeysOk(e, keys[..0]) && Expired(c, e, now, keys[..0]) == e && Samples(c, e, now, keys[..0], [])
  {
  }

  lemma KeyStaysOk<V>(c: Config<V>, e: seq<State<V>>, now: int, keys: seq<(nat, Slot)>, i: nat)
    requires KeysOk(e, keys) && i < |keys|
    ensures KeysOk(e, keys[..i]) && KeysOk(e, keys[..i + 1])
    ensures var m, (sh, k) := Expired(c, e, now, keys[..i]), keys[i];
            sh < |m| && k.db < |m[sh].epoch| == |m[sh].used|
  {
  }

  lemma SampleOfOne<V>(c: Config<V>, e: seq<State<V>>, now: int, sh: nat, k: Slot)
    requires sh < |e| && k.db < |e[sh].epoch| == |e[sh].used|
    ensures var (s, epoch, ver) := WatchVersion(c, e[sh], now, k);
            && s == Lookup(c, e[sh], now, k) && |s.epoch| == |e[sh].epoch| && |s.used| == |e[sh].used|
            && IsSample(e[sh := s], (sh, k), WatchRef(sh, k, epoch, ver))
  {
  }

  lemma ExpiredSnoc<V>(c: Config<V>, e: seq<State<V>>, now: int, keys: seq<(nat, Slot)>, i: nat)
    requires i < |keys| && KeysOk(e, keys[..i]) && KeysOk(e, keys[..i + 1])
    requires var m, (sh, k) := Expired(c, e, now, keys[..i]), keys[i]; sh < |m| && k.db < |m[sh].used|
    ensures var m, (sh, k) := Expired(c, e, now, keys[..i]), keys[i];
            Expired(c, e, now, keys[..i + 1]) == m[sh := Lookup(c, m[sh], now, k)]
  {
    hide Lookup;
    assert keys[..i + 1][..i] == keys[..i];
  }

  lemma SamplesSnoc<V>(c: Config<V>, e: seq<State<V>>, now: int, keys: seq<(nat, Slot)>, ws: seq<WatchRef>, i: nat,
                       w: WatchRef)
    requires i < |keys| && KeysOk(e, keys[..i]) && KeysOk(e, keys[..i + 1])
    requires Samples(c, e, now, keys[..i], ws)
    requires IsSample(Expired(c, e, now, keys[..i + 1]), keys[i], w)
    ensures Samples(c, e, now, keys[..i + 1], ws + [w])
  {
    hide Lookup, IsSample, Expired;
    var more := keys[..i + 1];
    forall j | 0 <= j < |more|
      ensures KeysOk(e, more[..j + 1]) && IsSample(Expired(c, e, now, more[..j + 1]), more[j], (ws + [w])[j]) {
      if j < i {
        assert more[..j + 1] == keys[..i][..j + 1] && more[j] == keys[..i][j];
      } else {
        assert more[..j + 1] == more;
      }
    }
  }

  predicate KeysOk<V>(e: seq<State<V>>, keys: seq<(nat, Slot)>) {
    forall j :: 0 <= j < |keys| ==>
      keys[j].0 < |e| && keys[j].1.db < |e[keys[j].0].epoch| == |e[keys[j].0].used|
  }

  /** What Execute finds out about a command before it queues it: whether it is in the
      command table, whether the connection may run it (authenticated, not in subscribe
      mode, no busy script), whether its arguments are enough, and whether memory is over
      the limit after eviction. */
  datatype Gates = Gates(known: bool, authed: bool, arityOk: bool, subscribed: bool, busy: bool, outOfMemory: bool)

  datatype Answer = Unknown | NoAuth | BadArgs | SubscribeMode | Busy | OutOfMemory | Queued

  /** The transaction state of one connection. */
  class Connection<C> {
    var multi: bool
    var queue: seq<C>
    var queueErr: bool
    var watch: seq<WatchRef>

    constructor ()
      ensures Clear()
    {
      multi, queue, queueErr, watch := false, [], false, [];
    }

    predicate Clear()
      reads this
    {
      !multi && queue == [] && !queueErr && watch == []
    }

    method ClearTx()
      modifies this
      ensures Clear()
    {
      multi, queue, queueErr, watch := false, [], false, [];
    }

    method Multi() returns (ok: bool)
      modifies this`multi
      ensures ok <==> !old(multi)
      ensures multi
    {
      ok := !multi;
      multi := true;
    }

    method Discard() returns (ok: bool)
      modifies this
      ensures ok <==> old(multi)
      ensures if ok then Clear()
              else !multi && queue == old(queue) && queueErr == old(queueErr) && watch == old(watch)
    {
      ok := multi;
      if ok { ClearTx(); }
    }

    /** The queue gate of Execute, for a command that MULTI queues.  An unknown command, a
        wrong arity and memory pressure dirty the transaction; missing authentication,
        subscribe mode and a busy script refuse the command and nothing more; the first
        gate that closes decides. */
    method Enqueue(cmd: C, g: Gates) returns (answer: Answer)
      requires multi
      modifies this`queue, this`queueErr
      ensures answer == Queued <==> g.known && g.authed && g.arityOk && !g.subscribed && !g.busy && !g.outOfMemory
      ensures queue == if answer == Queued then old(queue) + [cmd] else old(queue)
      ensures queueErr == (old(queueErr) || answer == Unknown || answer == BadArgs || answer == OutOfMemory)
      ensures answer == Unknown <==> !g.known
      ensures answer == BadArgs <==> g.known && g.authed && !g.arityOk
      ensures answer == OutOfMemory <==>
                g.known && g.authed && g.arityOk && !g.subscribed && !g.busy && g.outOfMemory
    {
      if !g.known { queueErr := true; return Unknown; }
      if !g.authed { return NoAuth; }
      if !g.arityOk { queueErr := true; return BadArgs; }
      if g.subscribed { return SubscribeMode; }
      if g.busy { return Busy; }
      if g.outOfMemory { queueErr := true; return OutOfMemory; }
      queue := queue + [cmd];
      return Queued;
    }

    /** WATCH samples each key on its own shard, in order, after passive expiry of it; inside
        MULTI it is refused. */
    method Watch<V>(eng: Engine<V>, now: int, keys: seq<(nat, Slot)>) returns (ok: bool)
      requires KeysOk(eng.shards, keys)
      modifies this`watch, eng
      ensures ok <==> !multi
      ensures !ok ==> watch == old(watch) && eng.shards == old(eng.shards)
      ensures ok ==> |watch| == |old(watch)| + |keys| && watch[..|old(watch)|] == old(watch)
      ensures ok ==> Samples(eng.cfg, old(eng.shards), now, keys, watch[|old(watch)|..])
      ensures ok ==> eng.shards == Expired(eng.cfg, old(eng.shards), now, keys)
    {
      hide WatchVersion, Lookup, Ver, Samples, Expired, IsSample, KeysOk;
      if multi { return false; }
      ok := true;
      ghost var e0, w0 := eng.shards, watch;
      var i := 0;
      NoSamples(eng.cfg, e0, now, keys);
      assert watch[|w0|..] == [];
      while i < |keys|
        invariant 0 <= i <= |keys| && |watch| == |w0| + i && watch[..|w0|] == w0 && KeysOk(e0, keys[..i])
        invariant eng.shards == Expired(eng.cfg, e0, now, keys[..i])
        invariant Samples(eng.cfg, e0, now, keys[..i], watch[|w0|..])
      {
        var (sh, k) := keys[i];
        KeyStaysOk(eng.cfg, e0, now, keys, i);
        var (s, epoch, ver) := WatchVersion(eng.cfg, eng.shards[sh], now, k);
        var w := WatchRef(sh, k, epoch, ver);
        SampleOfOne(eng.cfg, eng.shards, now, sh, k);
        ExpiredSnoc(eng.cfg, e0, now, keys, i);
        SamplesSnoc(eng.cfg, e0, now, keys, watch[|w0|..], i, w);
        eng.shards := eng.shards[sh := s];
        assert (watch + [w])[|w0|..] == watch[|w0|..] + [w];
        watch := watch + [w];
        i := i + 1;
      }
      assert keys[..i] == keys;
    }

    /** EXEC: leave multi mode whatever happens, check every watched key, then run
        the queue.  The pause makes the whole call one step for everybody else; the
        eviction passes inside it are in `ExecPause`. */
    method Exec<V, R>(eng: Engine<V>, now: int, argc: nat,
                      handler: (seq<State<V>>, C) -> (seq<State<V>>, R)) returns (r: ExecReply<R>)
      requires RefsOk(eng.shards, watch)
      modifies this, eng
      ensures r.BadArity? <==> argc != 1
      ensures r.NoMulti? <==> argc == 1 && !old(multi)
      ensures r.QueueAbort? <==> argc == 1 && old(multi) && old(queueErr)
      ensures if r.NoMulti? then queue == old(queue) && watch == old(watch) && !multi && queueErr == old(queueErr)
              else Clear()
      ensures !r.Null? && !r.Replies? ==> eng.shards == old(eng.shards)
      ensures r.Null? ==> (eng.shards, true) == old(CheckAll(eng.cfg, eng.shards, now, watch))
      ensures r.Replies? ==>
                && !old(CheckAll(eng.cfg, eng.shards, now, watch)).1
                && (eng.shards, r.rs) ==
                   RunQueue(old(CheckAll(eng.cfg, eng.shards, now, watch)).0, old(queue), handler)
    {
      hide CheckAll, RunQueue;
      if argc != 1 { ClearTx(); return BadArity; }
      if !multi { return NoMulti; }
      if queueErr { ClearTx(); return QueueAbort; }
      var dirty := CheckWatched(eng, now);
      if dirty { ClearTx(); return Null; }
      var rs := RunQueued(eng, handler);
      ClearTx();
      r := Replies(rs);
    }

    /** The check loop: watched keys in order, up to the first dirty one. */
    method CheckWatched<V>(eng: Engine<V>, now: int) returns (dirty: bool)
      requires RefsOk(eng.shards, watch)
      modifies eng
      ensures (eng.shards, dirty) == old(CheckAll(eng.cfg, eng.shards, now, watch))
    {
      hide WatchDirty;
      ghost var e0 := eng.shards;
      var i := 0;
      while i < |watch|
        invariant 0 <= i <= |watch| && RefsOk(eng.shards, watch)
        invariant CheckAll(eng.cfg, eng.shards, now, watch[i..]) == CheckAll(eng.cfg, e0, now, watch)
      {
        var w := watch[i];
        var (s, bad) := WatchDirty(eng.cfg, eng.shards[w.shard], now, w);
        assert watch[i..][0] == w && watch[i..][1..] == watch[i + 1..];
        eng.shards := eng.shards[w.shard := s];
        if bad { return true; }
        i := i + 1;
      }
      assert watch[i..] == [];
      return false;
    }

    /** The queue loop. */
    method RunQueued<V, R>(eng: Engine<V>, handler: (seq<State<V>>, C) -> (seq<State<V>>, R)) returns (rs: seq<R>)
      modifies eng
      ensures (eng.shards, rs) == RunQueue(old(eng.shards), queue, handler)
    {
      rs := [];
      var j := 0;
      while j < |queue|
        invariant 0 <= j <= |queue|
        invariant RunQueue(old(eng.shards), queue[..j], handler) == (eng.shards, rs)
      {
        var (e, reply) := handler(eng.shards, queue[j]);
        RunQueueSnoc(old(eng.shards), queue[..j], queue[j], handler);
        assert queue[..j] + [queue[j]] == queue[..j + 1];
        eng.shards := e;
        rs := rs + [reply];
        j := j + 1;
      }
      assert queue[..j] == queue;
    }
  }

  /** Isolation, with no eviction between the tasks of EXEC: each watched key was sampled
      in state `from[j]` and the events `between[j]` lead from there to the state in which
      EXEC runs.  If EXEC commits, none of those events disturbed the key, every watched
      entry is still the one that was sampled, and the queue runs on exactly that state:
      reads made after WATCH and the queued commands act as one atomic step.  What is left
      of this with evictions in between is `CommitWithEviction` in `ExecEviction`. */
  lemma CommitIsIsolated<V>(c: Config<V>, e: seq<State<V>>, now: int, ws: seq<WatchRef>,
                            from: seq<seq<State<V>>>, between: seq<seq<Event<V>>>)
    requires |from| == |between| == |ws| && RefsOk(e, ws)
    requires forall j :: 0 <= j < |ws| ==>
               && EngineInv(from[j]) && RefOk(from[j], ws[j])
               && CanHappen(c, from[j], between[j]) && After(c, from[j], between[j]) == e
               && ws[j].epoch == from[j][ws[j].shard].epoch[ws[j].slot.db]
               && ws[j].ver == Ver(from[j][ws[j].shard], ws[j].slot)
    ensures !CheckAll(c, e, now, ws).1 ==>
              && CheckAll(c, e, now, ws).0 == e
              && forall j :: 0 <= j < |ws| ==>
                   && RefOk(from[j], ws[j])
                   && Undisturbed(c, from[j], between[j], ws[j].shard, ws[j].slot)
                   && SameEntry(from[j][ws[j].shard], e[ws[j].shard], ws[j].slot)
  {
    if !CheckAll(c, e, now, ws).1 {
      forall j | 0 <= j < |ws| ensures Sampled(e, ws[j]) {
        RunWatch(c, from[j], between[j], ws[j].shard, ws[j].slot);
      }
      CheckAllClean(c, e, now, ws);
      forall j | 0 <= j < |ws|
        ensures Undisturbed(c, from[j], between[j], ws[j].shard, ws[j].slot)
        ensures SameEntry(from[j][ws[j].shard], e[ws[j].shard], ws[j].slot)
      {
        WatchIsExact(c, from[j], between[j], ws[j], now);
      }
    }
  }

  // ------------------------------------------------------------- WATCH and EXEC together

  /** Passive expiry of some keys, as events of the engine. */
  function Reads<V>(now: int, keys: seq<(nat, Slot)>): (r: seq<Event<V>>)
    ensures |r| == |keys| && forall i :: 0 <= i < |keys| ==> r[i] == On(keys[i].0, Op.Read(now, keys[i].1))
  {
    if keys == [] then []
    else
      var (sh, k) := keys[|keys| - 1];
      Reads(now, keys[..|keys| - 1]) + [On(sh, Op.Read(now, k))]
  }

  lemma {:induction false} HappenJoin<V>(c: Config<V>, e: seq<State<V>>, a: seq<Event<V>>, b: seq<Event<V>>)
    requires CanHappen(c, e, a) && CanHappen(c, After(c, e, a), b)
    ensures CanHappen(c, e, a + b) && After(c, e, a + b) == After(c, After(c, e, a), b)
    decreases |a|
  {
    hide Legal, Apply;
    if a == [] {
      assert a + b == b;
    } else {
      assert (a + b)[1..] == a[1..] + b;
      HappenJoin(c, Step(c, e, a[0]), a[1..], b);
    }
  }

  lemma ReadSnoc<V>(c: Config<V>, m: seq<State<V>>, evs: seq<Event<V>>, now: int, key: (nat, Slot))
    requires CanHappen(c, m, evs)
    requires var x := After(c, m, evs); key.0 < |x| && key.1.db < |x[key.0].used|
    ensures var more, x := evs + [On(key.0, Op.Read(now, key.1))], After(c, m, evs);
            CanHappen(c, m, more) && After(c, m, more) == x[key.0 := Lookup(c, x[key.0], now, key.1)]
  {
    hide Lookup;
    var x, one: seq<Event<V>> := After(c, m, evs), [On(key.0, Op.Read(now, key.1))];
    assert one[1..] == [];
    assert CanHappen(c, x, one) && After(c, x, one) == Step(c, x, one[0]);
    HappenJoin(c, m, evs, one);
  }

  /** From the state after the first i keys, passive expiry of the next ones leads to the
      state after n. */
  lemma {:induction false} RestExpires<V>(c: Config<V>, e: seq<State<V>>, now: int, keys: seq<(nat, Slot)>, i: nat,
                                          n: nat)
    requires KeysOk(e, keys) && i <= n <= |keys|
    ensures KeysOk(e, keys[..i]) && KeysOk(e, keys[..n])
    ensures var m, rest := Expired(c, e, now, keys[..i]), Reads<V>(now, keys[i..n]);
            CanHappen(c, m, rest) && After(c, m, rest) == Expired(c, e, now, keys[..n])
    decreases n - i
  {
    hide Lookup, CanHappen, After, KeysOk, Expired;
    KeysTail(e, keys, i);
    KeysTail(e, keys, n);
    if i == n {
      NoEvents(c, Expired(c, e, now, keys[..i]));
      assert keys[i..n] == [];
    } else {
      KeysTail(e, keys, n - 1);
      RestExpires(c, e, now, keys, i, n - 1);
      KeyStaysOk(c, e, now, keys, n - 1);
      ExpiredSnoc(c, e, now, keys, n - 1);
      ReadSnoc(c, Expired(c, e, now, keys[..i]), Reads(now, keys[i..n - 1]), now, keys[n - 1]);
      assert keys[i..n][..n - i - 1] == keys[i..n - 1];
    }
  }

  lemma NoEvents<V>(c: Config<V>, e: seq<State<V>>)
    ensures CanHappen(c, e, []) && After(c, e, []) == e
  {
  }

  lemma KeysTail<V>(e: seq<State<V>>, keys: seq<(nat, Slot)>, i: nat)
    requires KeysOk(e, keys) && i <= |keys|
    ensures KeysOk(e, keys[..i])
  {
  }

  lemma ExpiredKeepsInv<V>(c: Config<V>, e: seq<State<V>>, now: int, keys: seq<(nat, Slot)>, i: nat)
    requires EngineInv(e) && KeysOk(e, keys) && i <= |keys| && KeysOk(e, keys[..i])
    ensures EngineInv(Expired(c, e, now, keys[..i]))
    decreases i
  {
    hide Lookup, Inv;
    if i > 0 {
      KeysTail(e, keys, i - 1);
      ExpiredKeepsInv(c, e, now, keys, i - 1);
      var m, key := Expired(c, e, now, keys[..i - 1]), keys[i - 1];
      assert keys[..i][..i - 1] == keys[..i - 1];
      LookupKeepsInv(c, m[key.0], Op.Read(now, key.1));
    }
  }

  /** What happens between the sample of key j and the check. */
  function Between<V>(now: int, keys: seq<(nat, Slot)>, j: nat, evs: seq<Event<V>>): seq<Event<V>>
    requires j < |keys|
  {
    Reads(now, keys[j + 1..]) + evs
  }

  /** The key is left alone from its sample on, and is not due when it is checked. */
  ghost predicate LeftAlone<V>(c: Config<V>, e: seq<State<V>>, at: int, keys: seq<(nat, Slot)>, j: nat,
                               evs: seq<Event<V>>, now: int)
    requires KeysOk(e, keys) && j < |keys|
  {
    && KeysOk(e, keys[..j + 1])
    && var m, (sh, k) := Expired(c, e, at, keys[..j + 1]), keys[j];
       && CanHappen(c, m, Between(at, keys, j, evs)) && Undisturbed(c, m, Between(at, keys, j, evs), sh, k)
       && var e' := After(c, m, Between(at, keys, j, evs));
          sh < |e'| && (k in e'[sh].tab ==> !Due(e'[sh].tab[k], now))
  }

  lemma OneSample<V>(c: Config<V>, e: seq<State<V>>, at: int, keys: seq<(nat, Slot)>, ws: seq<WatchRef>, j: nat,
                     evs: seq<Event<V>>, now: int)
    requires EngineInv(e) && KeysOk(e, keys) && Samples(c, e, at, keys, ws) && j < |keys|
    requires CanHappen(c, Expired(c, e, at, keys), evs)
    ensures var e' := After(c, Expired(c, e, at, keys), evs);
            && RefOk(e', ws[j])
            && (!WatchDirty(c, e'[ws[j].shard], now, ws[j]).1 <==> LeftAlone(c, e, at, keys, j, evs, now))
            && Sampled(e', ws[j])
  {
    hide Expired, CanHappen, After, Undisturbed, WatchDirty, Inv, Reads, KeysOk, Lookup, Ver;
    KeysTail(e, keys, j + 1);
    var m, w := Expired(c, e, at, keys[..j + 1]), ws[j];
    RestExpires(c, e, at, keys, j + 1, |keys|);
    assert keys[..|keys|] == keys && keys[j + 1..|keys|] == keys[j + 1..];
    HappenJoin(c, m, Reads(at, keys[j + 1..]), evs);
    ExpiredKeepsInv(c, e, at, keys, j + 1);
    assert IsSample(m, keys[j], w);
    WatchIsExact(c, m, Between(at, keys, j, evs), w, now);
    RunWatch(c, m, Between(at, keys, j, evs), w.shard, w.slot);
  }

  lemma {:induction false} AllChecked<V>(c: Config<V>, e: seq<State<V>>, now: int, ws: seq<WatchRef>)
    requires RefsOk(e, ws) && forall j :: 0 <= j < |ws| ==> Sampled(e, ws[j])
    ensures CheckAll(c, e, now, ws).1 <==> exists j :: 0 <= j < |ws| && WatchDirty(c, e[ws[j].shard], now, ws[j]).1
    decreases |ws|
  {
    hide WatchDirty, Ver;
    if ws != [] {
      var w, rest := ws[0], ws[1..];
      if !WatchDirty(c, e[w.shard], now, w).1 {
        CleanCheckReadsOnly(c, e, now, w);
        assert e[w.shard := e[w.shard]] == e;
        assert forall j :: 0 <= j < |rest| ==> rest[j] == ws[j + 1];
        AllChecked(c, e, now, rest);
        if j :| 0 <= j < |ws| && WatchDirty(c, e[ws[j].shard], now, ws[j]).1 {
          assert rest[j - 1] == ws[j];
        }
      }
    }
  }

  /** WATCH and EXEC together: for samples as WATCH takes them, and whatever happens after,
      the checks of EXEC are clean if and only if every key was left alone from its sample
      on and is not due. */
  lemma WatchThenExec<V>(c: Config<V>, e: seq<State<V>>, at: int, keys: seq<(nat, Slot)>, ws: seq<WatchRef>,
                         evs: seq<Event<V>>, now: int)
    requires EngineInv(e) && KeysOk(e, keys) && Samples(c, e, at, keys, ws)
    requires CanHappen(c, Expired(c, e, at, keys), evs)
    ensures var e' := After(c, Expired(c, e, at, keys), evs);
            && RefsOk(e', ws)
            && (!CheckAll(c, e', now, ws).1 <==>
                  forall j :: 0 <= j < |keys| ==> LeftAlone(c, e, at, keys, j, evs, now))
  {
    hide Expired, CanHappen, After, LeftAlone, WatchDirty, Inv, KeysOk, CheckAll, Sampled, IsSample;
    var e' := After(c, Expired(c, e, at, keys), evs);
    forall j | 0 <= j < |ws|
      ensures RefOk(e', ws[j]) && Sampled(e', ws[j]) && ws[j].shard < |e'|
      ensures !WatchDirty(c, e'[ws[j].shard], now, ws[j]).1 <==> LeftAlone(c, e, at, keys, j, evs, now)
    {
      OneSample(c, e, at, keys, ws, j, evs, now);
    }
    AllChecked(c, e', now, ws);
  }
}
