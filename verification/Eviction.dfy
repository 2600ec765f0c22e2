/**
 Eviction under memory pressure (lib/shard/evict.go `maybeEvict`, `evictOne`): after every
 task, also inside a pause, a shard over its share of maxmemory removes victims until it is
 back under it, finds none, or has removed as many as it may after one task.  Which key a
 tracker or a random sample offers is left open; everything else is as in the source.
 */
module Eviction {
  import opened Basics
  import opened Keyspace

  /** How a victim is picked: the trackers and samples behind it are not modelled. */
  datatype Picker = Lru | Lfu | Random

  datatype Policy = NoEviction | AllKeys(how: Picker) | Volatile(how: Picker) | VolatileTtl

  type Count = n: nat | n > 0 witness 1

  /** What a pass reads when it starts: the configuration, and the clock. */
  datatype Limits = Limits(maxMemory: int, shards: Count, policy: Policy, samples: nat, now: int)

  /** Passes do nothing under these limits. */
  predicate Off(l: Limits) {
    l.maxMemory <= 0 || l.policy.NoEviction?
  }

  /** The shard is over its share. */
  predicate Presses<V>(l: Limits, s: State<V>) {
    !Off(l) && s.total > l.maxMemory / l.shards
  }

  /** The operation looks at the next candidate: a key that is evicted or, when its
      deadline has passed, expired; or the earliest item of the heap. */
  predicate Candidate<V>(l: Limits, s: State<V>, op: Op<V>) {
    match l.policy
    case NoEviction => false
    case AllKeys(_) => op.Evict? && op.k in s.tab
    case Volatile(_) => op.Evict? && op.k in s.tab && s.tab[op.k].expireAt != 0
    case VolatileTtl => op.PopItem? && op.item in s.heap && Earliest(s.heap, op.item)
  }

  /** ... and finds a victim: an entry that was not overdue anyway. */
  predicate Wins<V>(l: Limits, s: State<V>, op: Op<V>) {
    match op
    case Evict(k) => k in s.tab && !Due(s.tab[k], l.now)
    case PopItem(it) => Matches(s, it) && it.at > l.now
    case _ => false
  }

  /** How many candidates a search for one victim may look at. */
  function Tries(l: Limits, dbs: nat): nat {
    match l.policy
    case NoEviction => 0
    case VolatileTtl => 2 * l.samples
    case _ =>
      match l.policy.how
      case Lru => 2 * l.samples
      case Lfu => if l.samples > 0 then 1 else 0
      case Random => dbs * l.samples
  }

  /** The search may end without a victim. */
  predicate Exhausted<V>(l: Limits, s: State<V>, tries: nat) {
    l.policy.VolatileTtl? ==> s.heap == multiset{} || tries >= 2 * l.samples
  }

  /** `evictOne`: candidates up to the first victim.  `ops` are the candidates taken. */
  ghost predicate Turn<V>(c: Config<V>, l: Limits, s: State<V>, ops: seq<Op<V>>, tries: nat, s': State<V>, found: bool)
    decreases |ops|
  {
    if ops == [] then Exhausted(l, s, tries) && s' == s && !found
    else
      && tries < Tries(l, |s.used|) && Candidate(l, s, ops[0]) && Legal(s, ops[0])
      && if Wins(l, s, ops[0]) then |ops| == 1 && s' == Apply(c, s, ops[0]) && found
         else Turn(c, l, Apply(c, s, ops[0]), ops[1..], tries + 1, s', found)
  }

  datatype Search<V> = Search(ops: seq<Op<V>>, after: State<V>, found: bool)

  /** `maybeEvict`: one search after the other. */
  ghost predicate Pass<V>(c: Config<V>, l: Limits, s: State<V>, log: seq<Search<V>>, victims: nat, s': State<V>)
    decreases |log|
  {
    if !Presses(l, s) || victims > 4 * l.samples + 64 then log == [] && s' == s
    else
      && log != [] && Turn(c, l, s, log[0].ops, 0, log[0].after, log[0].found)
      && if log[0].found then Pass(c, l, log[0].after, log[1..], victims + 1, s')
         else |log| == 1 && s' == log[0].after
  }

  /** A pass may turn the first state into the second. */
  ghost predicate MayLeave<V(!new)>(c: Config<V>, l: Limits, s: State<V>, s': State<V>) {
    exists log :: Pass(c, l, s, log, 0, s')
  }

  predicate Earliest(heap: multiset<ExpItem>, top: ExpItem) {
    forall x :: x in heap ==> top.at <= x.at
  }

  lemma {:induction false} EarliestExists(heap: multiset<ExpItem>)
    requires heap != multiset{}
    ensures exists top :: top in heap && Earliest(heap, top)
    decreases |heap|
  {
    hide Earliest;
    var x :| x in heap;
    var rest := heap - multiset{x};
    if rest == multiset{} {
      EarlierOne(heap, x, x);
    } else {
      EarliestExists(rest);
      var t :| t in rest && Earliest(rest, t);
      EarlierOne(heap, x, t);
    }
  }

  lemma EarlierOne(heap: multiset<ExpItem>, x: ExpItem, t: ExpItem)
    requires x in heap && t in heap && (heap == multiset{x} || Earliest(heap - multiset{x}, t))
    ensures Earliest(heap, if x.at <= t.at then x else t)
  {
    forall y | y in heap ensures (if x.at <= t.at then x else t).at <= y.at {
      if y != x { assert y in heap - multiset{x}; }
    }
  }

  // ------------------------------------------------------------- a pass only takes away

  ghost function Weight<V>(s: State<V>): nat {
    |s.tab| + |s.heap|
  }

  /** Entries are gone or untouched, and at least n things are gone. */
  ghost predicate Shrunk<V>(s: State<V>, s': State<V>, n: nat) {
    && Inv(s') && |s'.epoch| == |s.epoch| && |s'.used| == |s.used|
    && Weight(s') + n <= Weight(s)
    && forall k :: k in s'.tab ==> k in s.tab && s'.tab[k] == s.tab[k]
  }

  lemma ShrunkTwice<V>(s: State<V>, m: State<V>, s': State<V>, a: nat, b: nat)
    requires Shrunk(s, m, a) && Shrunk(m, s', b)
    ensures Shrunk(s, s', a + b)
  {
    hide Inv;
  }

  lemma CandidateShrinks<V>(c: Config<V>, l: Limits, s: State<V>, op: Op<V>)
    requires Inv(s) && Candidate(l, s, op) && Legal(s, op)
    ensures Shrunk(s, Apply(c, s, op), 1)
  {
    hide Inv, Remove;
    ApplyKeepsInv(c, s, op);
    if op.Evict? {
      RemoveShrinks(c, s, op.k);
    } else {
      var s1 := s.(heap := s.heap - multiset{op.item});
      if Matches(s1, op.item) { RemoveShrinks(c, s1, op.item.slot); }
    }
  }

  lemma RemoveShrinks<V>(c: Config<V>, s: State<V>, k: Slot)
    requires k in s.tab && k.db < |s.used|
    ensures var s' := Remove(c, s, k);
            && s'.tab == s.tab - {k} && s'.heap == s.heap && |s'.tab| == |s.tab| - 1
            && |s'.epoch| == |s.epoch| && |s'.used| == |s.used|
  {
    hide Remove;
    RemoveFrame(c, s, k);
    assert (s.tab - {k}).Keys == s.tab.Keys - {k};
  }

  lemma NothingShrunk<V>(s: State<V>)
    requires Inv(s)
    ensures Shrunk(s, s, 0)
  {
  }

  lemma {:induction false} TurnShrinks<V>(c: Config<V>, l: Limits, s: State<V>, ops: seq<Op<V>>, tries: nat,
                                          s': State<V>, found: bool)
    requires Inv(s) && Turn(c, l, s, ops, tries, s', found)
    ensures Shrunk(s, s', |ops|) && (found ==> ops != [])
    decreases |ops|
  {
    hide Inv, Candidate, Apply, Wins, Legal, Shrunk;
    if ops == [] {
      NothingShrunk(s);
    } else {
      var m := Apply(c, s, ops[0]);
      CandidateShrinks(c, l, s, ops[0]);
      if !Wins(l, s, ops[0]) {
        StillInv(s, m, 1);
        TurnShrinks(c, l, m, ops[1..], tries + 1, s', found);
        ShrunkTwice(s, m, s', 1, |ops| - 1);
      }
    }
  }

  lemma StillInv<V>(s: State<V>, s': State<V>, n: nat)
    requires Shrunk(s, s', n)
    ensures Inv(s')
  {
  }

  /** A pass keeps the shard's invariant and removes entries and nothing else. */
  lemma {:induction false} PassShrinks<V>(c: Config<V>, l: Limits, s: State<V>, log: seq<Search<V>>, victims: nat,
                                          s': State<V>)
    requires Inv(s) && Pass(c, l, s, log, victims, s')
    ensures Shrunk(s, s', 0)
    decreases |log|
  {
    hide Inv, Turn, Presses, Shrunk;
    if log == [] {
      NothingShrunk(s);
    } else {
      var t := log[0];
      TurnShrinks(c, l, s, t.ops, 0, t.after, t.found);
      Less(s, t.after, |t.ops|);
      if t.found {
        StillInv(s, t.after, 0);
        PassShrinks(c, l, t.after, log[1..], victims + 1, s');
        ShrunkTwice(s, t.after, s', 0, 0);
      }
    }
  }

  lemma Less<V>(s: State<V>, s': State<V>, n: nat)
    requires Shrunk(s, s', n)
    ensures Shrunk(s, s', 0) && (n > 0 ==> Weight(s') < Weight(s))
  {
  }

  // ---------------------------------------------------------------- when a pass does work

  /** Some candidate stands there for the policy. */
  ghost predicate HasCandidate<V>(l: Limits, s: State<V>) {
    match l.policy
    case NoEviction => false
    case AllKeys(_) => s.tab != map[]
    case Volatile(_) => exists k :: k in s.tab && s.tab[k].expireAt != 0
    case VolatileTtl => s.heap != multiset{}
  }

  /** What can be looked up before the task: the shard is over its share, and the policy
      has a candidate there and may look at it. */
  ghost predicate CanEvict<V>(l: Limits, s: State<V>) {
    Presses(l, s) && Tries(l, |s.used|) > 0 && HasCandidate(l, s)
  }

  lemma CandidateExists<V>(l: Limits, s: State<V>) returns (op: Op<V>)
    requires Inv(s) && HasCandidate(l, s)
    ensures Candidate(l, s, op) && Legal(s, op)
  {
    match l.policy
    case AllKeys(_) =>
      var k :| k in s.tab;
      op := Op.Evict(k);
    case Volatile(_) =>
      var k :| k in s.tab && s.tab[k].expireAt != 0;
      op := Op.Evict(k);
    case VolatileTtl =>
      EarliestExists(s.heap);
      var it :| it in s.heap && Earliest(s.heap, it);
      op := Op.PopItem(it);
  }

  /** A search always comes to an end; with a candidate in reach there is one that takes
      it. */
  lemma {:induction false} TurnGoes<V>(c: Config<V>, l: Limits, s: State<V>, tries: nat)
    returns (ops: seq<Op<V>>, s': State<V>, found: bool)
    requires Inv(s)
    ensures Turn(c, l, s, ops, tries, s', found)
    ensures HasCandidate(l, s) && tries < Tries(l, |s.used|) ==> ops != []
    decreases Weight(s)
  {
    hide Inv, Candidate, Legal, Apply, Wins;
    if HasCandidate(l, s) && tries < Tries(l, |s.used|) {
      var op := CandidateExists(l, s);
      var m := Apply(c, s, op);
      CandidateShrinks(c, l, s, op);
      if Wins(l, s, op) {
        ops, s', found := [op], m, true;
      } else {
        var rest;
        rest, s', found := TurnGoes(c, l, m, tries + 1);
        ops := [op] + rest;
      }
    } else {
      ops, s', found := [], s, false;
    }
  }

  lemma {:induction false} PassGoes<V>(c: Config<V>, l: Limits, s: State<V>, victims: nat)
    returns (log: seq<Search<V>>, s': State<V>)
    requires Inv(s)
    ensures Pass(c, l, s, log, victims, s')
    ensures CanEvict(l, s) && victims == 0 ==> Weight(s') < Weight(s)
    decreases Weight(s)
  {
    hide Inv, Turn, Shrunk, HasCandidate, Tries, Presses, Weight;
    if !Presses(l, s) || victims > 4 * l.samples + 64 {
      log, s' := [], s;
    } else {
      var ops, m, found := TurnGoes(c, l, s, 0);
      TurnShrinks(c, l, s, ops, 0, m, found);
      Less(s, m, |ops|);
      if found {
        StillInv(s, m, 0);
        var rest;
        rest, s' := PassGoes(c, l, m, victims + 1);
        PassShrinks(c, l, m, rest, victims + 1, s');
        NoMore(m, s');
        log := [Search(ops, m, found)] + rest;
      } else {
        log, s' := [Search(ops, m, found)], m;
      }
    }
  }

  lemma NoMore<V>(s: State<V>, s': State<V>)
    requires Shrunk(s, s', 0)
    ensures Weight(s') <= Weight(s)
  {
  }

  /** Exactly when a pass can change the state. */
  lemma CanEvictIff<V(!new)>(c: Config<V>, l: Limits, s: State<V>)
    requires Inv(s)
    ensures (exists s' :: s' != s && MayLeave(c, l, s, s')) <==> CanEvict(l, s)
    ensures CanEvict(l, s) || MayLeave(c, l, s, s)
  {
    hide Inv, Pass;
    var log, s' := PassGoes(c, l, s, 0);
    assert MayLeave(c, l, s, s');
    if !CanEvict(l, s) {
      forall t | MayLeave(c, l, s, t) ensures t == s {
        var log :| Pass(c, l, s, log, 0, t);
        IdlePass(c, l, s, log, t);
      }
    }
  }

  lemma IdlePass<V>(c: Config<V>, l: Limits, s: State<V>, log: seq<Search<V>>, s': State<V>)
    requires !CanEvict(l, s) && Pass(c, l, s, log, 0, s')
    ensures s' == s
  {
    hide Turn, HasCandidate, Tries, Presses;
    if Presses(l, s) { FirstTurn(c, l, s, log[0].ops, log[0].after, log[0].found); }
  }

  lemma FirstTurn<V>(c: Config<V>, l: Limits, s: State<V>, ops: seq<Op<V>>, s': State<V>, found: bool)
    requires Turn(c, l, s, ops, 0, s', found)
    ensures if ops == [] then s' == s && !found else HasCandidate(l, s) && Tries(l, |s.used|) > 0
  {
    hide Legal, Apply, Wins;
    if ops != [] { assert Candidate(l, s, ops[0]); }
  }

  /** A pass that changes anything takes something away. */
  lemma PassTakes<V(!new)>(c: Config<V>, l: Limits, s: State<V>, s': State<V>)
    requires Inv(s) && MayLeave(c, l, s, s')
    ensures Shrunk(s, s', 0) && (s' == s || Weight(s') < Weight(s))
  {
    hide Inv, Turn, Shrunk, Presses;
    var log: seq<Search<V>> :| Pass(c, l, s, log, 0, s');
    PassShrinks(c, l, s, log, 0, s');
    if log != [] {
      var t := log[0];
      TurnShrinks(c, l, s, t.ops, 0, t.after, t.found);
      Less(s, t.after, |t.ops|);
      if t.found {
        StillInv(s, t.after, 0);
        PassShrinks(c, l, t.after, log[1..], 1, s');
        NoMore(t.after, s');
      } else if t.ops == [] {
        FirstTurn(c, l, s, t.ops, t.after, false);
      }
    }
  }

  /** A pass leaves the shard under its share, or without a further victim, or after as
      many as a pass may take. */
  lemma {:induction false} PassEnds<V>(c: Config<V>, l: Limits, s: State<V>, log: seq<Search<V>>, victims: nat,
                                       s': State<V>)
    requires Inv(s) && Pass(c, l, s, log, victims, s') && victims <= 4 * l.samples + 65
    ensures || l.maxMemory <= 0 || l.policy == NoEviction || s'.total <= l.maxMemory / l.shards
            || (log != [] && !log[|log| - 1].found)
            || victims + |log| == 4 * l.samples + 65
    decreases |log|
  {
    hide Inv, Turn;
    if log != [] && log[0].found {
      TurnShrinks(c, l, s, log[0].ops, 0, log[0].after, true);
      StillInv(s, log[0].after, |log[0].ops|);
      PassEnds(c, l, log[0].after, log[1..], victims + 1, s');
    }
  }

  // ----------------------------------------------------------------- what a pass spares

  /** Keys without a deadline are still there, with the entry they had. */
  ghost predicate SparesUntimed<V>(s: State<V>, s': State<V>) {
    forall k :: k in s.tab && s.tab[k].expireAt == 0 ==> k in s'.tab && s'.tab[k] == s.tab[k]
  }

  lemma SparedTwice<V>(s: State<V>, m: State<V>, s': State<V>)
    requires SparesUntimed(s, m) && SparesUntimed(m, s')
    ensures SparesUntimed(s, s')
  {
  }

  lemma CandidateSpares<V>(c: Config<V>, l: Limits, s: State<V>, op: Op<V>)
    requires Inv(s) && (l.policy.Volatile? || l.policy.VolatileTtl?) && Candidate(l, s, op) && Legal(s, op)
    ensures SparesUntimed(s, Apply(c, s, op))
  {
    hide Remove, Earliest;
    TableAfter(c, s, op);
  }

  lemma {:induction false} TurnSpares<V>(c: Config<V>, l: Limits, s: State<V>, ops: seq<Op<V>>, tries: nat,
                                         s': State<V>, found: bool)
    requires Inv(s) && (l.policy.Volatile? || l.policy.VolatileTtl?) && Turn(c, l, s, ops, tries, s', found)
    ensures SparesUntimed(s, s')
    decreases |ops|
  {
    hide Inv, Candidate, Apply, Wins, Legal, Shrunk;
    if ops != [] {
      var m := Apply(c, s, ops[0]);
      CandidateSpares(c, l, s, ops[0]);
      if !Wins(l, s, ops[0]) {
        CandidateShrinks(c, l, s, ops[0]);
        StillInv(s, m, 1);
        TurnSpares(c, l, m, ops[1..], tries + 1, s', found);
        SparedTwice(s, m, s');
      }
    }
  }

  /** The keys that are gone, apart from one, were past their deadline. */
  ghost predicate OnlyPastGone<V>(s: State<V>, s': State<V>, now: int, but: Option<Slot>) {
    forall k :: k in s.tab && k !in s'.tab && but != Some(k) ==> Past(s.tab[k].expireAt, now)
  }

  lemma CandidateRemoves<V>(c: Config<V>, l: Limits, s: State<V>, op: Op<V>)
    requires Inv(s) && Candidate(l, s, op) && Legal(s, op)
    ensures op.Evict? || op.PopItem?
    ensures var s', k := Apply(c, s, op), if op.Evict? then op.k else op.item.slot;
            if Wins(l, s, op) then
              && k in s.tab && !Past(s.tab[k].expireAt, l.now) && k !in s'.tab
              && OnlyPastGone(s, s', l.now, Some(k))
            else OnlyPastGone(s, s', l.now, None)
  {
    hide Remove, Earliest;
    TableAfter(c, s, op);
  }

  lemma {:induction false} TurnRemoves<V>(c: Config<V>, l: Limits, s: State<V>, ops: seq<Op<V>>, tries: nat,
                                          s': State<V>, found: bool) returns (victim: Option<Slot>)
    requires Inv(s) && Turn(c, l, s, ops, tries, s', found)
    ensures found == victim.Some? && OnlyPastGone(s, s', l.now, victim)
    ensures found ==> victim.value in s.tab && victim.value !in s'.tab && !Past(s.tab[victim.value].expireAt, l.now)
    decreases |ops|
  {
    hide Inv, Candidate, Apply, Wins, Legal, Shrunk;
    victim := None;
    if ops != [] {
      var op, m := ops[0], Apply(c, s, ops[0]);
      CandidateRemoves(c, l, s, op);
      if Wins(l, s, op) {
        victim := Some(if op.Evict? then op.k else op.item.slot);
      } else {
        CandidateShrinks(c, l, s, op);
        StillInv(s, m, 1);
        SameEntries(s, m, 1);
        victim := TurnRemoves(c, l, m, ops[1..], tries + 1, s', found);
      }
    }
  }

  lemma SameEntries<V>(s: State<V>, s': State<V>, n: nat)
    requires Shrunk(s, s', n)
    ensures forall k :: k in s'.tab ==> k in s.tab && s'.tab[k] == s.tab[k]
  {
  }

  /** Under the volatile policies a pass removes no key without a deadline. */
  lemma {:induction false} VolatileSpares<V>(c: Config<V>, l: Limits, s: State<V>, log: seq<Search<V>>, victims: nat,
                                             s': State<V>)
    requires Inv(s) && (l.policy.Volatile? || l.policy.VolatileTtl?) && Pass(c, l, s, log, victims, s')
    ensures SparesUntimed(s, s')
    decreases |log|
  {
    hide Inv, Turn, Presses, Shrunk;
    if log != [] {
      var t := log[0];
      TurnSpares(c, l, s, t.ops, 0, t.after, t.found);
      if t.found {
        TurnShrinks(c, l, s, t.ops, 0, t.after, t.found);
        StillInv(s, t.after, |t.ops|);
        VolatileSpares(c, l, t.after, log[1..], victims + 1, s');
        SparedTwice(s, t.after, s');
      }
    }
  }
}
