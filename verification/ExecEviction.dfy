/**
 WATCH, EXEC and eviction (lib/commands/tx.go `cmdExec`, lib/shard/shard.go `park`,
 lib/shard/evict.go `maybeEvict`).  The pause keeps every other connection away from the
 shards, but not the eviction pass that follows each check.  Here is exactly when the queue
 runs on the state that was checked, what holds of the watched keys when it does not, and
 the keys that go missing between their check and the queue.
 */
module ExecEviction {
  import opened Basics
  import opened Keyspace
  import opened Eviction
  import opened ExecPause
  import T = Transactions

  // ----------------------------------------------------- checks and passes only take away

  lemma LookupShrinks<V>(c: Config<V>, s: State<V>, now: int, k: Slot)
    requires Inv(s) && k.db < |s.used|
    ensures Shrunk(s, Lookup(c, s, now, k), 0)
  {
    hide Inv, Remove;
    LookupKeepsInv(c, s, Op.Read(now, k));
    if k in s.tab { RemoveShrinks(c, s, k); }
  }

  lemma CheckShrinks<V>(c: Config<V>, s: State<V>, now: int, w: T.WatchRef)
    requires Inv(s)
    ensures Shrunk(s, Check(c, s, now, w).0, 0)
  {
    hide Inv, Lookup, Shrunk;
    NothingShrunk(s);
    if Fits(s, w) { LookupShrinks(c, s, now, w.slot); }
  }

  /** Every shard has lost entries, or nothing. */
  ghost predicate AllShrunk<V>(e: seq<State<V>>, e': seq<State<V>>) {
    |e'| == |e| && forall i :: 0 <= i < |e| ==> Shrunk(e[i], e'[i], 0)
  }

  lemma StepShrinks<V(!new)>(c: Config<V>, e: seq<State<V>>, now: int, w: T.WatchRef, lims: nat -> Limits,
                             pass: (nat, State<V>) -> State<V>, k: nat)
    requires T.EngineInv(e) && Passes(c, lims, pass)
    ensures var e' := RunJob(CheckJob(c, now, w), pass, k, e); T.EngineInv(e') && AllShrunk(e, e')
  {
    hide Inv, Shrunk, Check, MayLeave, Presses;
    var e' := RunJob(CheckJob(c, now, w), pass, k, e);
    forall i | 0 <= i < |e| ensures Inv(e'[i]) && Shrunk(e[i], e'[i], 0) {
      NothingShrunk(e[i]);
      if i == w.shard {
        var s := Check(c, e[i], now, w).0;
        CheckShrinks(c, e[i], now, w);
        StillInv(e[i], s, 0);
        PassTakes(c, lims(k), s, pass(k, s));
        ShrunkTwice(e[i], s, e'[i], 0, 0);
        StillInv(e[i], e'[i], 0);
      }
    }
  }

  lemma {:induction false} CheckedShrinks<V(!new)>(c: Config<V>, e: seq<State<V>>, now: int, ws: seq<T.WatchRef>,
                                                   lims: nat -> Limits, pass: (nat, State<V>) -> State<V>, k: nat)
    requires T.EngineInv(e) && Passes(c, lims, pass)
    ensures AllShrunk(e, Checked(c, e, now, ws, pass, k).0)
    decreases |ws|
  {
    hide T.EngineInv, Passes, CheckOn, CheckJob, RunJob, AllShrunk;
    if ws == [] {
      SameShrunk(e);
    } else {
      var e' := RunJob(CheckJob(c, now, ws[0]), pass, k, e);
      StepShrinks(c, e, now, ws[0], lims, pass, k);
      if !CheckOn(c, e, now, ws[0]) {
        CheckedShrinks(c, e', now, ws[1..], lims, pass, k + 1);
        AllShrunkTwice(e, e', Checked(c, e', now, ws[1..], pass, k + 1).0);
      }
    }
  }

  lemma SameShrunk<V>(e: seq<State<V>>)
    requires T.EngineInv(e)
    ensures AllShrunk(e, e)
  {
    hide Inv, Shrunk;
    forall i | 0 <= i < |e| ensures Shrunk(e[i], e[i], 0) { NothingShrunk(e[i]); }
  }

  lemma AllShrunkTwice<V>(a: seq<State<V>>, b: seq<State<V>>, d: seq<State<V>>)
    requires AllShrunk(a, b) && AllShrunk(b, d)
    ensures AllShrunk(a, d)
  {
    hide Shrunk;
    forall i | 0 <= i < |a| ensures Shrunk(a[i], d[i], 0) { ShrunkTwice(a[i], b[i], d[i], 0, 0); }
  }

  // ------------------------------------------------------- the state the queue starts on

  ghost predicate AllSampled<V>(e: seq<State<V>>, ws: seq<T.WatchRef>) {
    forall j :: 0 <= j < |ws| ==> T.Sampled(e, ws[j])
  }

  /** One clean check: the state it leaves before its pass is the state it found. */
  lemma CleanStep<V>(c: Config<V>, e: seq<State<V>>, now: int, w: T.WatchRef, pass: (nat, State<V>) -> State<V>,
                     k: nat)
    requires T.Sampled(e, w) && !CheckOn(c, e, now, w)
    ensures RunJob(CheckJob(c, now, w), pass, k, e) == e[w.shard := pass(k, e[w.shard])]
    ensures !T.WatchDirty(c, e[w.shard], now, w).1 && e[w.shard := T.WatchDirty(c, e[w.shard], now, w).0] == e
  {
    T.CleanCheckReadsOnly(c, e, now, w);
  }

  lemma DirtyStep<V>(c: Config<V>, e: seq<State<V>>, now: int, w: T.WatchRef)
    requires T.Sampled(e, w)
    ensures CheckOn(c, e, now, w) == T.WatchDirty(c, e[w.shard], now, w).1
  {
  }

  lemma SampledRest<V>(e: seq<State<V>>, ws: seq<T.WatchRef>)
    requires AllSampled(e, ws) && ws != []
    ensures T.Sampled(e, ws[0]) && AllSampled(e, ws[1..]) && T.RefsOk(e, ws)
  {
    hide T.RefOk;
    assert forall j :: 0 <= j < |ws[1..]| ==> ws[1..][j] == ws[j + 1];
    forall j | 0 <= j < |ws| ensures T.RefOk(e, ws[j]) { assert T.Sampled(e, ws[j]); }
  }

  /** The pass after each check finds nothing to do, on the state before the checks. */
  ghost predicate NoneEvicts<V>(e: seq<State<V>>, ws: seq<T.WatchRef>, pass: (nat, State<V>) -> State<V>, k: nat)
    requires T.RefsOk(e, ws)
  {
    forall j :: 0 <= j < |ws| ==> pass(k + j, e[ws[j].shard]) == e[ws[j].shard]
  }

  /** In a run with given passes, the queue starts on the state the checks found if and
      only if every key was clean and no check was followed by an eviction. */
  lemma {:induction false} QueueStart<V(!new)>(c: Config<V>, e: seq<State<V>>, now: int, ws: seq<T.WatchRef>,
                                               lims: nat -> Limits, pass: (nat, State<V>) -> State<V>, k: nat)
    requires T.EngineInv(e) && AllSampled(e, ws) && Passes(c, lims, pass) && T.RefsOk(e, ws)
    ensures Checked(c, e, now, ws, pass, k) == (e, false) <==>
            !T.CheckAll(c, e, now, ws).1 && NoneEvicts(e, ws, pass, k)
    decreases |ws|
  {
    hide T.EngineInv, Passes, CheckOn, CheckJob, RunJob, T.WatchDirty, T.Sampled, AllSampled, AllShrunk, NoneEvicts;
    if ws == [] {
      NoneLeft(e, ws, pass, k);
    } else {
      var w, rest := ws[0], ws[1..];
      SampledRest(e, ws);
      DirtyStep(c, e, now, w);
      if !CheckOn(c, e, now, w) {
        CleanStep(c, e, now, w, pass, k);
        var e' := e[w.shard := pass(k, e[w.shard])];
        if e'[w.shard] == e[w.shard] {
          assert e' == e;
          RefsRest(e, ws);
          QueueStart(c, e, now, rest, lims, pass, k + 1);
          Shifted(e, ws, pass, k);
        } else {
          OneEvicts(e, ws, pass, k);
          StepTakes(c, e, now, w, lims, pass, k);
          CheckedShrinks(c, e', now, rest, lims, pass, k + 1);
          Lighter(e, e', Checked(c, e', now, rest, pass, k + 1).0, w.shard);
        }
      }
    }
  }

  lemma RefsRest<V>(e: seq<State<V>>, ws: seq<T.WatchRef>)
    requires T.RefsOk(e, ws) && ws != []
    ensures T.RefsOk(e, ws[1..]) && T.RefOk(e, ws[0])
  {
    hide T.RefOk;
    assert forall j :: 0 <= j < |ws[1..]| ==> ws[1..][j] == ws[j + 1];
  }

  lemma Shifted<V>(e: seq<State<V>>, ws: seq<T.WatchRef>, pass: (nat, State<V>) -> State<V>, k: nat)
    requires ws != [] && T.RefsOk(e, ws) && T.RefsOk(e, ws[1..]) && pass(k, e[ws[0].shard]) == e[ws[0].shard]
    ensures NoneEvicts(e, ws, pass, k) <==> NoneEvicts(e, ws[1..], pass, k + 1)
  {
    var rest := ws[1..];
    if NoneEvicts(e, rest, pass, k + 1) {
      forall j | 0 <= j < |ws| ensures pass(k + j, e[ws[j].shard]) == e[ws[j].shard] {
        if j > 0 {
          assert rest[j - 1] == ws[j];
          assert pass(k + 1 + (j - 1), e[rest[j - 1].shard]) == e[rest[j - 1].shard];
        }
      }
    }
    if NoneEvicts(e, ws, pass, k) {
      forall j | 0 <= j < |rest| ensures pass(k + 1 + j, e[rest[j].shard]) == e[rest[j].shard] {
        assert rest[j] == ws[j + 1];
        assert pass(k + (j + 1), e[ws[j + 1].shard]) == e[ws[j + 1].shard];
      }
    }
  }

  lemma NoneLeft<V>(e: seq<State<V>>, ws: seq<T.WatchRef>, pass: (nat, State<V>) -> State<V>, k: nat)
    requires ws == [] && T.RefsOk(e, ws)
    ensures NoneEvicts(e, ws, pass, k)
  {
  }

  lemma OneEvicts<V>(e: seq<State<V>>, ws: seq<T.WatchRef>, pass: (nat, State<V>) -> State<V>, k: nat)
    requires ws != [] && T.RefsOk(e, ws) && T.RefOk(e, ws[0]) && pass(k, e[ws[0].shard]) != e[ws[0].shard]
    ensures !NoneEvicts(e, ws, pass, k)
  {
    assert k + 0 == k;
  }

  lemma StepTakes<V(!new)>(c: Config<V>, e: seq<State<V>>, now: int, w: T.WatchRef, lims: nat -> Limits,
                           pass: (nat, State<V>) -> State<V>, k: nat)
    requires T.EngineInv(e) && Passes(c, lims, pass) && w.shard < |e| && pass(k, e[w.shard]) != e[w.shard]
    ensures Weight(pass(k, e[w.shard])) < Weight(e[w.shard])
    ensures T.EngineInv(e[w.shard := pass(k, e[w.shard])])
  {
    hide Inv, MayLeave, Presses, Weight, Shrunk;
    var s := e[w.shard];
    PassTakes(c, lims(k), s, pass(k, s));
    StillInv(s, pass(k, s), 0);
  }

  lemma Lighter<V>(e: seq<State<V>>, m: seq<State<V>>, e': seq<State<V>>, i: nat)
    requires i < |e| == |m| && AllShrunk(m, e') && Weight(m[i]) < Weight(e[i])
    ensures e' != e
  {
    hide Shrunk;
    NoMore(m[i], e'[i]);
  }

  /** Some change that a pass may make, wherever it may make one. */
  ghost function Busiest<V(!new)>(c: Config<V>, l: Limits, s: State<V>): State<V> {
    if Inv(s) && CanEvict(l, s) then
      CanEvictIff(c, l, s);
      var s' :| s' != s && MayLeave(c, l, s, s');
      s'
    else s
  }

  lemma BusiestPasses<V(!new)>(c: Config<V>, lims: nat -> Limits, pass: (nat, State<V>) -> State<V>)
    requires forall k: nat, s :: pass(k, s) == Busiest(c, lims(k), s)
    ensures Passes(c, lims, pass)
  {
    hide Inv, MayLeave, Presses;
    forall k: nat, s | Inv(s) ensures MayLeave(c, lims(k), s, pass(k, s)) { CanEvictIff(c, lims(k), s); }
    forall k: nat, s | !Presses(lims(k), s) ensures pass(k, s) == s { assert !CanEvict(lims(k), s); }
  }

  /** Whatever the passes do, the queue runs on the state that was checked. */
  ghost predicate Undisturbed<V(!new)>(c: Config<V>, e: seq<State<V>>, now: int, ws: seq<T.WatchRef>,
                                       lims: nat -> Limits) {
    forall pass: (nat, State<V>) -> State<V> :: Passes(c, lims, pass) ==> Checked(c, e, now, ws, pass, 0) == (e, false)
  }

  /** No checked shard is over its share of maxmemory with a candidate for the policy. */
  ghost predicate NoneCanEvict<V>(e: seq<State<V>>, ws: seq<T.WatchRef>, lims: nat -> Limits)
    requires T.RefsOk(e, ws)
  {
    forall j :: 0 <= j < |ws| ==> !CanEvict(lims(j), e[ws[j].shard])
  }

  /** The condition before the call.  Given that every watched key is clean, the queue runs
      on exactly the state that was checked, whatever the passes do, if and only if none of
      the checked shards can evict. */
  lemma QueueStartIff<V(!new)>(c: Config<V>, e: seq<State<V>>, now: int, ws: seq<T.WatchRef>, lims: nat -> Limits)
    requires T.EngineInv(e) && AllSampled(e, ws) && T.RefsOk(e, ws) && !T.CheckAll(c, e, now, ws).1
    ensures Undisturbed(c, e, now, ws, lims) <==> NoneCanEvict(e, ws, lims)
  {
    hide T.CheckAll, Checked, AllSampled, Passes, T.EngineInv, NoneCanEvict, T.RefsOk;
    if NoneCanEvict(e, ws, lims) {
      forall pass: (nat, State<V>) -> State<V> | Passes(c, lims, pass)
        ensures Checked(c, e, now, ws, pass, 0) == (e, false) {
        QuietStart(c, e, now, ws, lims, pass);
      }
    } else {
      BusyStart(c, e, now, ws, lims);
    }
  }

  lemma QuietStart<V(!new)>(c: Config<V>, e: seq<State<V>>, now: int, ws: seq<T.WatchRef>, lims: nat -> Limits,
                            pass: (nat, State<V>) -> State<V>)
    requires T.EngineInv(e) && AllSampled(e, ws) && T.RefsOk(e, ws) && !T.CheckAll(c, e, now, ws).1
    requires NoneCanEvict(e, ws, lims) && Passes(c, lims, pass)
    ensures Checked(c, e, now, ws, pass, 0) == (e, false)
  {
    hide T.CheckAll, Checked, AllSampled, Passes, CanEvict, T.EngineInv;
    QueueStart(c, e, now, ws, lims, pass, 0);
    forall j | 0 <= j < |ws| ensures pass(0 + j, e[ws[j].shard]) == e[ws[j].shard] {
      QuietPass(c, e, lims, pass, ws[j].shard, j);
    }
  }

  lemma BusyStart<V(!new)>(c: Config<V>, e: seq<State<V>>, now: int, ws: seq<T.WatchRef>, lims: nat -> Limits)
    requires T.EngineInv(e) && AllSampled(e, ws) && T.RefsOk(e, ws) && !NoneCanEvict(e, ws, lims)
    ensures !Undisturbed(c, e, now, ws, lims)
  {
    hide T.CheckAll, Checked, AllSampled, Passes, CanEvict, T.EngineInv, Busiest;
    ghost var pass := (k: nat, s: State<V>) => Busiest(c, lims(k), s);
    BusiestPasses(c, lims, pass);
    QueueStart(c, e, now, ws, lims, pass, 0);
    var j :| 0 <= j < |ws| && CanEvict(lims(j), e[ws[j].shard]);
    BusyPass(c, lims(j), e, ws[j].shard);
    assert pass(0 + j, e[ws[j].shard]) != e[ws[j].shard];
  }

  lemma QuietPass<V(!new)>(c: Config<V>, e: seq<State<V>>, lims: nat -> Limits, pass: (nat, State<V>) -> State<V>,
                           i: nat, k: nat)
    requires T.EngineInv(e) && Passes(c, lims, pass) && i < |e| && !CanEvict(lims(k), e[i])
    ensures pass(k, e[i]) == e[i]
  {
    hide Inv, MayLeave, CanEvict, Presses;
    CanEvictIff(c, lims(k), e[i]);
  }

  lemma BusyPass<V(!new)>(c: Config<V>, l: Limits, e: seq<State<V>>, i: nat)
    requires T.EngineInv(e) && i < |e| && CanEvict(l, e[i])
    ensures Busiest(c, l, e[i]) != e[i]
  {
    hide Inv, MayLeave, CanEvict;
    CanEvictIff(c, l, e[i]);
  }

  // ------------------------------------------------------------------ the watched keys

  /** The pair (epoch, version) of k has not gone down, and has moved if the entry has. */
  ghost predicate Aged<V>(s: State<V>, s': State<V>, k: Slot) {
    && k.db < |s.epoch| == |s'.epoch| && s.epoch[k.db] <= s'.epoch[k.db]
    && (s'.epoch[k.db] == s.epoch[k.db] ==>
          Ver(s, k) <= Ver(s', k) && (Ver(s', k) == Ver(s, k) ==> T.SameEntry(s, s', k)))
  }

  lemma AgedTwice<V>(s: State<V>, m: State<V>, s': State<V>, k: Slot)
    requires Aged(s, m, k) && Aged(m, s', k)
    ensures Aged(s, s', k)
  {
    hide Ver;
  }

  lemma StepAges<V>(c: Config<V>, s: State<V>, op: Op<V>, k: Slot)
    requires Inv(s) && Legal(s, op) && k.db < |s.epoch|
    ensures Aged(s, Apply(c, s, op), k)
  {
    hide Inv, Legal, Apply, Ver, T.Disturbs, T.SameEntry;
    T.StepWatch(c, s, op, k);
    if !T.Disturbs(c, s, op, k) { assert T.SameEntry(s, Apply(c, s, op), k); }
  }

  lemma {:induction false} TurnAges<V>(c: Config<V>, l: Limits, s: State<V>, ops: seq<Op<V>>, tries: nat,
                                       s': State<V>, found: bool, k: Slot)
    requires Inv(s) && Turn(c, l, s, ops, tries, s', found) && k.db < |s.epoch|
    ensures Aged(s, s', k)
    decreases |ops|
  {
    hide Inv, Legal, Apply, Candidate, Wins, Ver, T.SameEntry, Shrunk, Aged;
    if ops == [] {
      SameAge(s, k);
    } else {
      var m := Apply(c, s, ops[0]);
      StepAges(c, s, ops[0], k);
      if !Wins(l, s, ops[0]) {
        CandidateShrinks(c, l, s, ops[0]);
        StillInv(s, m, 1);
        AgedInRange(s, m, k);
        TurnAges(c, l, m, ops[1..], tries + 1, s', found, k);
        AgedTwice(s, m, s', k);
      }
    }
  }

  lemma SameAge<V>(s: State<V>, k: Slot)
    requires k.db < |s.epoch|
    ensures Aged(s, s, k)
  {
  }

  lemma AgedInRange<V>(s: State<V>, s': State<V>, k: Slot)
    requires Aged(s, s', k)
    ensures k.db < |s'.epoch|
  {
  }

  lemma {:induction false} PassAges<V>(c: Config<V>, l: Limits, s: State<V>, log: seq<Search<V>>, victims: nat,
                                       s': State<V>, k: Slot)
    requires Inv(s) && Pass(c, l, s, log, victims, s') && k.db < |s.epoch|
    ensures Aged(s, s', k)
    decreases |log|
  {
    hide Inv, Turn, Presses, Aged, Shrunk;
    if log == [] {
      SameAge(s, k);
    } else {
      var t := log[0];
      TurnAges(c, l, s, t.ops, 0, t.after, t.found, k);
      if t.found {
        TurnShrinks(c, l, s, t.ops, 0, t.after, t.found);
        StillInv(s, t.after, |t.ops|);
        AgedInRange(s, t.after, k);
        PassAges(c, l, t.after, log[1..], victims + 1, s', k);
        AgedTwice(s, t.after, s', k);
      }
    }
  }

  lemma CheckAges<V>(c: Config<V>, s: State<V>, now: int, w: T.WatchRef, k: Slot)
    requires Inv(s) && k.db < |s.epoch|
    ensures Aged(s, Check(c, s, now, w).0, k)
  {
    hide Inv, Aged, Lookup;
    SameAge(s, k);
    if Fits(s, w) { StepAges(c, s, Op.Read(now, w.slot), k); }
  }

  /** A check and its pass, seen by a watcher of a key on any shard. */
  lemma JobAges<V(!new)>(c: Config<V>, e: seq<State<V>>, now: int, w: T.WatchRef, lims: nat -> Limits,
                         pass: (nat, State<V>) -> State<V>, k: nat, i: nat, x: Slot)
    requires T.EngineInv(e) && Passes(c, lims, pass) && i < |e| && x.db < |e[i].epoch|
    ensures Aged(e[i], RunJob(CheckJob(c, now, w), pass, k, e)[i], x)
  {
    hide Inv, Aged, Check, Pass, Presses, Shrunk;
    SameAge(e[i], x);
    if i == w.shard {
      var s := Check(c, e[i], now, w).0;
      CheckAges(c, e[i], now, w, x);
      CheckShrinks(c, e[i], now, w);
      StillInv(e[i], s, 0);
      AgedInRange(e[i], s, x);
      assert MayLeave(c, lims(k), s, pass(k, s));
      var log: seq<Search<V>> :| Pass(c, lims(k), s, log, 0, pass(k, s));
      PassAges(c, lims(k), s, log, 0, pass(k, s), x);
      AgedTwice(e[i], s, pass(k, s), x);
    }
  }

  /** The sample was taken in this state or before. */
  ghost predicate Behind<V>(e: seq<State<V>>, w: T.WatchRef) {
    && T.RefOk(e, w) && w.epoch <= e[w.shard].epoch[w.slot.db]
    && (w.epoch == e[w.shard].epoch[w.slot.db] ==> w.ver <= Ver(e[w.shard], w.slot))
  }

  /** The pair is still the sampled one. */
  predicate Untouched<V>(e: seq<State<V>>, w: T.WatchRef) {
    T.RefOk(e, w) && w.epoch == e[w.shard].epoch[w.slot.db] && w.ver == Ver(e[w.shard], w.slot)
  }

  /** ... and its deadline has not passed: the check comes out clean. */
  predicate Clean<V>(e: seq<State<V>>, w: T.WatchRef, now: int) {
    Untouched(e, w) && (w.slot in e[w.shard].tab ==> !Due(e[w.shard].tab[w.slot], now))
  }

  /** The entry is the same later, or gone. */
  ghost predicate SameOrGone<V>(s: State<V>, s': State<V>, k: Slot) {
    T.SameEntry(s, s', k) || (k in s.tab && k !in s'.tab)
  }

  lemma BehindStays<V>(e: seq<State<V>>, e': seq<State<V>>, w: T.WatchRef)
    requires Behind(e, w) && |e'| == |e| && Aged(e[w.shard], e'[w.shard], w.slot)
    requires |e'[w.shard].used| == |e[w.shard].used|
    ensures Behind(e', w)
    ensures forall now :: Clean(e', w, now) ==> Clean(e, w, now)
  {
    hide Ver;
  }

  lemma CleanIsUntouched<V>(c: Config<V>, e: seq<State<V>>, now: int, w: T.WatchRef)
    requires Behind(e, w) && !CheckOn(c, e, now, w)
    ensures Clean(e, w, now)
  {
    T.CleanCheckReadsOnly(c, e, now, w);
  }

  lemma GoneOrSame<V>(s: State<V>, s': State<V>, k: Slot)
    requires Shrunk(s, s', 0)
    ensures SameOrGone(s, s', k)
  {
    hide Inv;
  }

  /** What a clean outcome of all checks says of each watched key, at the start of the
      checks and when the queue starts. */
  lemma {:induction false} CleanMeans<V(!new)>(c: Config<V>, e: seq<State<V>>, now: int, ws: seq<T.WatchRef>,
                                               lims: nat -> Limits, pass: (nat, State<V>) -> State<V>, k: nat, j: nat)
    requires T.EngineInv(e) && Passes(c, lims, pass) && !Checked(c, e, now, ws, pass, k).1
    requires j < |ws| && Behind(e, ws[j])
    ensures |Checked(c, e, now, ws, pass, k).0| == |e|
    ensures Clean(e, ws[j], now)
    ensures SameOrGone(e[ws[j].shard], Checked(c, e, now, ws, pass, k).0[ws[j].shard], ws[j].slot)
    decreases |ws|
  {
    hide T.EngineInv, Passes, CheckOn, CheckJob, RunJob, Aged, Shrunk, Ver;
    var w, v, i := ws[0], ws[j], ws[j].shard;
    var e' := RunJob(CheckJob(c, now, w), pass, k, e);
    StepShrinks(c, e, now, w, lims, pass, k);
    CheckedShrinks(c, e, now, ws, lims, pass, k);
    assert Shrunk(e[i], e'[i], 0);
    if j == 0 {
      CleanIsUntouched(c, e, now, w);
      GoneOrSame(e[i], Checked(c, e, now, ws, pass, k).0[i], v.slot);
    } else {
      JobAges(c, e, now, w, lims, pass, k, i, v.slot);
      SameShape(e[i], e'[i]);
      BehindStays(e, e', v);
      assert ws[1..][j - 1] == v;
      CleanMeans(c, e', now, ws[1..], lims, pass, k + 1, j - 1);
      GoneOrSame(e[i], Checked(c, e, now, ws, pass, k).0[i], v.slot);
    }
  }

  lemma SameShape<V>(s: State<V>, s': State<V>)
    requires Shrunk(s, s', 0)
    ensures |s'.used| == |s.used| && |s'.epoch| == |s.epoch|
  {
  }

  /** The sample was taken in `from`, and the events lead from there to e. */
  ghost predicate Leads<V>(c: Config<V>, from: seq<State<V>>, evs: seq<T.Event<V>>, e: seq<State<V>>, w: T.WatchRef) {
    && T.EngineInv(from) && T.RefOk(from, w) && T.CanHappen(c, from, evs) && T.After(c, from, evs) == e
    && w.epoch == from[w.shard].epoch[w.slot.db] && w.ver == Ver(from[w.shard], w.slot)
  }

  lemma SinceSample<V>(c: Config<V>, from: seq<State<V>>, evs: seq<T.Event<V>>, e: seq<State<V>>, w: T.WatchRef)
    requires Leads(c, from, evs, e, w) && T.RefOk(e, w)
    ensures Behind(e, w)
    ensures Untouched(e, w) ==> T.Undisturbed(c, from, evs, w.shard, w.slot)
                                && T.SameEntry(from[w.shard], e[w.shard], w.slot)
  {
    hide Inv, Ver;
    T.RunWatch(c, from, evs, w.shard, w.slot);
  }

  lemma {:induction false} AllClean<V>(c: Config<V>, e: seq<State<V>>, now: int, ws: seq<T.WatchRef>)
    requires T.RefsOk(e, ws) && forall j :: 0 <= j < |ws| ==> Clean(e, ws[j], now)
    ensures !T.CheckAll(c, e, now, ws).1 && AllSampled(e, ws)
    decreases |ws|
  {
    if ws != [] {
      var w := ws[0];
      assert Clean(e, w, now);
      assert T.WatchDirty(c, e[w.shard], now, w) == (e[w.shard], false);
      assert e[w.shard := e[w.shard]] == e;
      RefsRest(e, ws);
      assert forall j :: 0 <= j < |ws[1..]| ==> ws[1..][j] == ws[j + 1];
      AllClean(c, e, now, ws[1..]);
      forall j | 0 <= j < |ws| ensures T.Sampled(e, ws[j]) { assert Clean(e, ws[j], now); }
    }
  }

  /** Nothing disturbed the key between its sample and the checks, its entry was then the
      sampled one, and at the start of the queue it still is, or is gone. */
  ghost predicate Kept<V>(c: Config<V>, from: seq<State<V>>, evs: seq<T.Event<V>>, e: seq<State<V>>,
                          start: seq<State<V>>, w: T.WatchRef) {
    && T.CanHappen(c, from, evs) && T.Undisturbed(c, from, evs, w.shard, w.slot)
    && w.shard < |from| == |e| == |start|
    && T.SameEntry(from[w.shard], e[w.shard], w.slot)
    && SameOrGone(e[w.shard], start[w.shard], w.slot)
  }

  /** What WATCH promises with eviction.  Each watched key was sampled in state from[j], and
      the events between[j] lead from there to the state e in which the checks of EXEC start.
      If EXEC commits, none of those events disturbed any watched key; and when the queue
      starts, every watched entry is the one that was sampled, or it has been evicted since
      its check.  If none of the checked shards can evict, the queue starts on e itself. */
  lemma CommitWithEviction<V(!new)>(c: Config<V>, e: seq<State<V>>, now: int, ws: seq<T.WatchRef>,
                                    from: seq<seq<State<V>>>, between: seq<seq<T.Event<V>>>, lims: nat -> Limits,
                                    pass: (nat, State<V>) -> State<V>, j: nat)
    requires |from| == |between| == |ws| && T.RefsOk(e, ws) && T.EngineInv(e) && Passes(c, lims, pass)
    requires forall i :: 0 <= i < |ws| ==> Leads(c, from[i], between[i], e, ws[i])
    requires j < |ws| && !Checked(c, e, now, ws, pass, 0).1
    ensures var start := Checked(c, e, now, ws, pass, 0).0;
            && Kept(c, from[j], between[j], e, start, ws[j])
            && (NoneCanEvict(e, ws, lims) ==> start == e)
  {
    hide T.EngineInv, Passes, Checked, Ver, T.CheckAll, T.Undisturbed, NoneCanEvict, Leads, Behind;
    hide SameOrGone, T.SameEntry, T.CanHappen;
    forall i | 0 <= i < |ws| ensures Behind(e, ws[i]) && Clean(e, ws[i], now) {
      SinceSample(c, from[i], between[i], e, ws[i]);
      CleanMeans(c, e, now, ws, lims, pass, 0, i);
    }
    SinceSample(c, from[j], between[j], e, ws[j]);
    CleanMeans(c, e, now, ws, lims, pass, 0, j);
    SameShards(c, from[j], between[j], e, ws[j]);
    if NoneCanEvict(e, ws, lims) {
      AllClean(c, e, now, ws);
      QuietStart(c, e, now, ws, lims, pass);
    }
  }

  lemma SameShards<V>(c: Config<V>, from: seq<State<V>>, evs: seq<T.Event<V>>, e: seq<State<V>>, w: T.WatchRef)
    requires Leads(c, from, evs, e, w)
    ensures |from| == |e| && w.shard < |e|
    ensures T.CanHappen(c, from, evs)
  {
    hide Inv, Ver;
    T.RunWatch(c, from, evs, w.shard, w.slot);
  }

  // ------------------------------------------------------- a key lost after its check

  lemma PassWithVictim<V(!new)>(c: Config<V>, l: Limits, s: State<V>, op: Op<V>, k: Slot) returns (s': State<V>)
    requires Inv(s) && Presses(l, s) && Tries(l, |s.used|) > 0
    requires Candidate(l, s, op) && Legal(s, op) && Wins(l, s, op) && Takes(op, k)
    ensures MayLeave(c, l, s, s') && k !in s'.tab
  {
    hide Inv, Presses, Candidate, Legal, Shrunk, Wins;
    var m := Apply(c, s, op);
    CandidateShrinks(c, l, s, op);
    StillInv(s, m, 1);
    VictimIsGone(c, l, s, op, k);
    var rest;
    rest, s' := PassGoes(c, l, m, 1);
    PassShrinks(c, l, m, rest, 1, s');
    NothingNew(m, s');
    var log := [Search([op], m, true)] + rest;
    assert log[1..] == rest;
    assert Turn(c, l, s, [op], 0, m, true);
    assert Pass(c, l, s, log, 0, s');
  }

  /** The candidate's key. */
  predicate Takes<V>(op: Op<V>, k: Slot) {
    (op.Evict? && op.k == k) || (op.PopItem? && op.item.slot == k)
  }

  lemma VictimIsGone<V>(c: Config<V>, l: Limits, s: State<V>, op: Op<V>, k: Slot)
    requires Inv(s) && Candidate(l, s, op) && Legal(s, op) && Wins(l, s, op) && Takes(op, k)
    ensures k !in Apply(c, s, op).tab
  {
    hide Inv, Remove;
    if op.Evict? {
      RemoveFrame(c, s, k);
    } else {
      RemoveFrame(c, s.(heap := s.heap - multiset{op.item}), k);
    }
  }

  lemma NothingNew<V>(s: State<V>, s': State<V>)
    requires Shrunk(s, s', 0)
    ensures forall k :: k in s'.tab ==> k in s.tab
  {
  }

  /** A key lost after its check.  On a shard over its share, whichever live key the policy
      may pick can be watched and clean and yet gone when the queue starts, and EXEC still
      commits. */
  lemma CheckedKeyCanGo<V(!new)>(c: Config<V>, e: seq<State<V>>, now: int, w: T.WatchRef, lims: nat -> Limits,
                                 op: Op<V>) returns (pass: (nat, State<V>) -> State<V>)
    requires T.EngineInv(e) && T.Sampled(e, w) && !T.WatchDirty(c, e[w.shard], now, w).1
    requires var l, s := lims(0), e[w.shard];
             && Presses(l, s) && Tries(l, |s.used|) > 0
             && Candidate(l, s, op) && Legal(s, op) && Wins(l, s, op) && Takes(op, w.slot)
    ensures Passes(c, lims, pass)
    ensures var (start, dirty) := Checked(c, e, now, [w], pass, 0);
            !dirty && |start| == |e| && w.slot !in start[w.shard].tab
  {
    hide Inv, Presses, MayLeave, Candidate, Legal, Wins, T.WatchDirty, CheckOn, CheckJob, RunJob;
    var s := e[w.shard];
    var s' := PassWithVictim(c, lims(0), s, op, w.slot);
    pass := (k: nat, x: State<V>) => if k == 0 && x == s then s' else Busiest(c, lims(k), x);
    OnePassChosen(c, lims, pass, s, s');
    DirtyStep(c, e, now, w);
    CleanStep(c, e, now, w, pass, 0);
    assert [w][1..] == [];
  }

  lemma OnePassChosen<V(!new)>(c: Config<V>, lims: nat -> Limits, pass: (nat, State<V>) -> State<V>, s: State<V>,
                               s': State<V>)
    requires Presses(lims(0), s) && MayLeave(c, lims(0), s, s')
    requires forall k: nat, x :: pass(k, x) == if k == 0 && x == s then s' else Busiest(c, lims(k), x)
    ensures Passes(c, lims, pass)
  {
    hide Inv, MayLeave, Presses;
    forall k: nat, x | Inv(x) ensures MayLeave(c, lims(k), x, pass(k, x)) {
      CanEvictIff(c, lims(k), x);
      assert pass(k, x) == if k == 0 && x == s then s' else Busiest(c, lims(k), x);
    }
    forall k: nat, x | !Presses(lims(k), x) ensures pass(k, x) == x {
      assert !CanEvict(lims(k), x);
      assert pass(k, x) == if k == 0 && x == s then s' else Busiest(c, lims(k), x);
    }
  }

  /** With a concrete engine: one key with a deadline, sampled right after it was set; and a
      maxmemory of one byte, policy volatile-ttl, set before EXEC.  The key is clean, EXEC
      commits, and the queue does not find it. */
  lemma LostAfterItsCheck<V(!new)>(c: Config<V>, key: string, v: V, at: int, now: int)
    returns (e: seq<State<V>>, w: T.WatchRef, pass: (nat, State<V>) -> State<V>)
    requires now < at && 0 < at
    ensures e == [Apply(c, Fresh(1), Op.WriteUntil(Slot(0, key), v, at))]
    ensures w == T.WatchRef(0, Slot(0, key), 0, 1) && w.slot in e[0].tab
    ensures Passes(c, _ => Limits(1, 1, VolatileTtl, 5, now), pass)
    ensures var (start, dirty) := Checked(c, e, now, [w], pass, 0);
            !dirty && |start| == 1 && w.slot !in start[0].tab
  {
    hide Inv, Apply, Checked, MayLeave, Passes;
    var slot, item := Slot(0, key), ExpItem(at, Slot(0, key), 1);
    OneKey(c, slot, v, at);
    e, w := [Apply(c, Fresh(1), Op.WriteUntil(slot, v, at))], T.WatchRef(0, slot, 0, 1);
    pass := CheckedKeyCanGo(c, e, now, w, _ => Limits(1, 1, VolatileTtl, 5, now), Op.PopItem(item));
  }

  /** The shard after SET with a deadline on an empty DB. */
  lemma OneKey<V>(c: Config<V>, slot: Slot, v: V, at: int)
    requires slot.db == 0 && at > 0
    ensures var s := Apply(c, Fresh(1), Op.WriteUntil(slot, v, at));
            && Inv(s) && s.tab == map[slot := Entry(v, at, 1, 1, EntryMem(c, slot, v))]
            && s.heap == multiset{ExpItem(at, slot, 1)} && s.epoch == [0] && |s.used| == 1
            && s.total == EntryMem(c, slot, v) >= 80
  {
    hide Inv;
    FreshInv<V>();
    ApplyKeepsInv(c, Fresh(1), Op.WriteUntil(slot, v, at));
  }

  lemma FreshInv<V>()
    ensures Inv(Fresh<V>(1))
  {
    assert Sum([0]) == 0 + Sum([0][1..]);
  }
}
