/**
 Pipelined bursts and multi-key fan-out (lib/commands/burst.go, lib/shard/shard.go
 `DoMultiTok`).  A segment of one-key commands is split into groups by shard, every group
 runs in order on its own shard, the groups run concurrently, and every reply goes to the
 slot of its command.  The theorem is that every interleaving of the groups gives the
 replies and the final keyspace of running the commands one by one.
 */
module Burst {
  import opened Basics
  import C = Commands

  /** Commands that touch one key each: the key, and what the command makes of it. */
  datatype Machine<!Cmd, !K, !V, !R> = Machine(key: Cmd -> K, step: (Cmd, Option<V>) -> (Option<V>, R))

  /** One command on the keyspace. */
  function Step<Cmd, K, V, R>(mc: Machine<Cmd, K, V, R>, c: Cmd, m: map<K, V>): (map<K, V>, R) {
    var (v, r) := mc.step(c, At(m, mc.key(c)));
    (Put(m, mc.key(c), v), r)
  }

  /** The commands one by one, with their replies in order. */
  function OneByOne<Cmd, K, V, R>(mc: Machine<Cmd, K, V, R>, cmds: seq<Cmd>, m: map<K, V>): (map<K, V>, seq<R>)
    decreases |cmds|
  {
    if cmds == [] then (m, [])
    else
      var (m1, rs) := OneByOne(mc, cmds[..|cmds| - 1], m);
      var (m2, r) := Step(mc, cmds[|cmds| - 1], m1);
      (m2, rs + [r])
  }

  // ------------------------------------------------------------------ schedules

  predicate InRange(order: seq<nat>, n: nat) {
    forall i :: 0 <= i < |order| ==> order[i] < n
  }

  /** The positions of a schedule whose label is t, in schedule order. */
  function Project<T(==)>(order: seq<nat>, labels: seq<T>, t: T): seq<nat>
    requires InRange(order, |labels|)
  {
    if order == [] then []
    else
      var p := order[|order| - 1];
      var before := Project(order[..|order| - 1], labels, t);
      if labels[p] == t then before + [p] else before
  }

  function Identity(n: nat): (r: seq<nat>)
    ensures |r| == n && forall i :: 0 <= i < n ==> r[i] == i
  {
    if n == 0 then [] else Identity(n - 1) + [n - 1]
  }

  /** A schedule is an interleaving of the groups when its projection to each shard is
      that shard's group: the positions routed to the shard, in order. */
  ghost predicate Interleaves(order: seq<nat>, shards: seq<nat>) {
    && InRange(order, |shards|)
    && (forall s: nat :: Project(order, shards, s) == Project(Identity(|shards|), shards, s))
  }

  /** Running the positions in schedule order, each reply going to its own slot. */
  function RunOrder<Cmd, K, V, R>(mc: Machine<Cmd, K, V, R>, cmds: seq<Cmd>, order: seq<nat>, m: map<K, V>,
                                  slots: map<nat, R>): (map<K, V>, map<nat, R>)
    requires InRange(order, |cmds|)
    decreases |order|
  {
    if order == [] then (m, slots)
    else
      var p := order[|order| - 1];
      var (m1, out) := RunOrder(mc, cmds, order[..|order| - 1], m, slots);
      var (m2, r) := Step(mc, cmds[p], m1);
      (m2, out[p := r])
  }

  // ------------------------------------------------------- projections by shard and key

  lemma {:induction false} ProjectMembers<T>(order: seq<nat>, labels: seq<T>, t: T)
    requires InRange(order, |labels|)
    ensures forall p :: p in Project(order, labels, t) <==> p in order && labels[p] == t
  {
    if order != [] {
      var p, rest := order[|order| - 1], order[..|order| - 1];
      ProjectMembers(rest, labels, t);
      assert order == rest + [p];
    }
  }

  lemma ProjectSnoc<T>(order: seq<nat>, p: nat, labels: seq<T>, t: T)
    requires InRange(order, |labels|) && p < |labels|
    ensures Project(order + [p], labels, t) ==
            if labels[p] == t then Project(order, labels, t) + [p] else Project(order, labels, t)
  {
    assert (order + [p])[..|order|] == order;
  }

  lemma ProjectInRange<T>(order: seq<nat>, labels: seq<T>, t: T)
    requires InRange(order, |labels|)
    ensures InRange(Project(order, labels, t), |labels|)
  {
    ProjectMembers(order, labels, t);
    var r := Project(order, labels, t);
    forall i | 0 <= i < |r| ensures r[i] < |labels| { assert r[i] in r; }
  }

  /** Projecting to a shard and then to one of its keys is projecting to the key. */
  lemma {:induction false} ProjectTwice<A, B>(order: seq<nat>, shards: seq<A>, s: A, keys: seq<B>, k: B)
    requires |shards| == |keys| && InRange(order, |shards|)
    requires forall p :: 0 <= p < |keys| && keys[p] == k ==> shards[p] == s
    ensures InRange(Project(order, shards, s), |keys|)
    ensures Project(Project(order, shards, s), keys, k) == Project(order, keys, k)
  {
    ProjectInRange(order, shards, s);
    if order != [] {
      var p, rest := order[|order| - 1], order[..|order| - 1];
      ProjectTwice(rest, shards, s, keys, k);
      if shards[p] == s { ProjectSnoc(Project(rest, shards, s), p, keys, k); }
    }
  }

  /** Positions with the same key are on the same shard, so an interleaving keeps the
      order of every key's commands. */
  lemma KeyOrderKept<K>(order: seq<nat>, shards: seq<nat>, keys: seq<K>, k: K, s: nat)
    requires |shards| == |keys| && Interleaves(order, shards)
    requires forall p :: 0 <= p < |keys| && keys[p] == k ==> shards[p] == s
    ensures Project(order, keys, k) == Project(Identity(|keys|), keys, k)
  {
    ProjectTwice(order, shards, s, keys, k);
    ProjectTwice(Identity(|keys|), shards, s, keys, k);
  }

  predicate Increasing(xs: seq<nat>) {
    forall i, j :: 0 <= i < j < |xs| ==> xs[i] < xs[j]
  }

  lemma IncreasingSnoc(xs: seq<nat>, p: nat)
    requires Increasing(xs) && InRange(xs, p)
    ensures Increasing(xs + [p]) && InRange(xs + [p], p + 1)
  {
  }

  lemma {:induction false} GroupIncreasing<T>(n: nat, labels: seq<T>, t: T)
    requires n <= |labels|
    ensures Increasing(Project(Identity(n), labels, t))
    ensures InRange(Project(Identity(n), labels, t), n)
  {
    if n > 0 {
      GroupIncreasing(n - 1, labels, t);
      ProjectSnoc(Identity(n - 1), n - 1, labels, t);
      IncreasingSnoc(Project(Identity(n - 1), labels, t), n - 1);
    }
  }

  lemma {:induction false} ProjectPrefix<T>(order: seq<nat>, i: nat, labels: seq<T>, t: T)
    requires i <= |order| && InRange(order, |labels|)
    ensures Project(order[..i], labels, t) <= Project(order, labels, t)
    decreases |order|
  {
    if i == |order| {
      assert order[..i] == order;
    } else {
      ProjectPrefix(order[..|order| - 1], i, labels, t);
      assert order[..|order| - 1][..i] == order[..i];
    }
  }

  lemma BeforeIsPrefix<K>(order: seq<nat>, keys: seq<K>, i: nat)
    requires i < |order| && InRange(order, |keys|)
    ensures var k := keys[order[i]];
            Project(order[..i], keys, k) + [order[i]] <= Project(order, keys, k)
  {
    hide Project;
    var p := order[i];
    assert order[..i + 1] == order[..i] + [p];
    ProjectSnoc(order[..i], p, keys, keys[p]);
    ProjectPrefix(order, i + 1, keys, keys[p]);
  }

  /** The commands on p's key that run before p are the same in every interleaving:
      those issued before it. */
  lemma SameBefore<K>(order: seq<nat>, keys: seq<K>, i: nat)
    requires i < |order| && InRange(order, |keys|)
    requires Project(order, keys, keys[order[i]]) == Project(Identity(|keys|), keys, keys[order[i]])
    ensures Project(order[..i], keys, keys[order[i]]) == Project(Identity(order[i]), keys, keys[order[i]])
  {
    var p, id := order[i], Identity(|keys|);
    BeforeIsPrefix(order, keys, i);
    BeforeIsPrefix(id, keys, p);
    assert id[..p] == Identity(p);
    GroupIncreasing(|keys|, keys, keys[p]);
    PrefixBefore(Project(id, keys, keys[p]), Project(order[..i], keys, keys[p]),
                 Project(Identity(p), keys, keys[p]), p);
  }

  lemma PrefixBefore(all: seq<nat>, a: seq<nat>, b: seq<nat>, p: nat)
    requires Increasing(all) && a + [p] <= all && b + [p] <= all
    ensures a == b
  {
    assert (a + [p])[|a|] == all[|a|] && (b + [p])[|b|] == all[|b|];
    assert |a| == |b|;
    assert a == all[..|a|] by { assert forall j :: 0 <= j < |a| ==> (a + [p])[j] == all[j]; }
    assert b == all[..|b|] by { assert forall j :: 0 <= j < |b| ==> (b + [p])[j] == all[j]; }
  }

  // ----------------------------------------------------------- what a key goes through

  function KeysOf<Cmd, K, V, R>(mc: Machine<Cmd, K, V, R>, cmds: seq<Cmd>): (ks: seq<K>)
    ensures |ks| == |cmds| && forall i :: 0 <= i < |cmds| ==> ks[i] == mc.key(cmds[i])
  {
    seq(|cmds|, i requires 0 <= i < |cmds| => mc.key(cmds[i]))
  }

  /** The state of one key after the commands at the given positions, all on that key. */
  function KeyFold<Cmd, K, V, R>(mc: Machine<Cmd, K, V, R>, cmds: seq<Cmd>, ps: seq<nat>, v: Option<V>): Option<V>
    requires InRange(ps, |cmds|)
    decreases |ps|
  {
    if ps == [] then v
    else mc.step(cmds[ps[|ps| - 1]], KeyFold(mc, cmds, ps[..|ps| - 1], v)).0
  }

  lemma KeyFoldSnoc<Cmd, K, V, R>(mc: Machine<Cmd, K, V, R>, cmds: seq<Cmd>, ps: seq<nat>, p: nat, v: Option<V>)
    requires InRange(ps, |cmds|) && p < |cmds|
    ensures KeyFold(mc, cmds, ps + [p], v) == mc.step(cmds[p], KeyFold(mc, cmds, ps, v)).0
  {
    assert (ps + [p])[..|ps|] == ps;
  }

  /** A run leaves every key as the fold of that key's own commands leaves it. */
  lemma {:induction false} KeyView<Cmd, K, V, R>(mc: Machine<Cmd, K, V, R>, cmds: seq<Cmd>, order: seq<nat>,
                                                 m: map<K, V>, slots: map<nat, R>, k: K)
    requires InRange(order, |cmds|)
    ensures var mine := Project(order, KeysOf(mc, cmds), k);
            && InRange(mine, |cmds|)
            && At(RunOrder(mc, cmds, order, m, slots).0, k) == KeyFold(mc, cmds, mine, At(m, k))
    decreases |order|
  {
    var keys := KeysOf(mc, cmds);
    ProjectInRange(order, keys, k);
    if order != [] {
      var p, rest := order[|order| - 1], order[..|order| - 1];
      KeyView(mc, cmds, rest, m, slots, k);
      KeyFoldSnoc(mc, cmds, Project(rest, keys, k), p, At(m, k));
    }
  }

  /** The reply command p gets when the commands are issued one by one. */
  function Expected<Cmd, K, V, R>(mc: Machine<Cmd, K, V, R>, cmds: seq<Cmd>, m: map<K, V>, p: nat): R
    requires p < |cmds|
  {
    var keys := KeysOf(mc, cmds);
    ProjectInRange(Identity(p), keys, keys[p]);
    mc.step(cmds[p], KeyFold(mc, cmds, Project(Identity(p), keys, keys[p]), At(m, keys[p]))).1
  }

  /** Every key's commands run in issue order. */
  ghost predicate KeysInOrder<K>(order: seq<nat>, keys: seq<K>) {
    InRange(order, |keys|) &&
    forall p :: 0 <= p < |keys| ==>
      Project(order, keys, keys[p]) == Project(Identity(|keys|), keys, keys[p])
  }

  lemma {:induction false} SlotsFilled<Cmd, K, V, R>(mc: Machine<Cmd, K, V, R>, cmds: seq<Cmd>, order: seq<nat>,
                                                     i: nat, m: map<K, V>)
    requires KeysInOrder(order, KeysOf(mc, cmds)) && i <= |order|
    ensures var out := RunOrder(mc, cmds, order[..i], m, map[]).1;
            && (forall p :: p in out ==> p < |cmds| && out[p] == Expected(mc, cmds, m, p))
            && (forall p :: p in order[..i] ==> p in out)
    decreases i
  {
    if i > 0 {
      var p, keys := order[i - 1], KeysOf(mc, cmds);
      SlotsFilled(mc, cmds, order, i - 1, m);
      assert order[..i] == order[..i - 1] + [p];
      RunOrderSnoc(mc, cmds, order[..i - 1], p, m, map[]);
      KeyView(mc, cmds, order[..i - 1], m, map[], keys[p]);
      SameBefore(order, keys, i - 1);
    }
  }

  lemma AllScheduled(order: seq<nat>, shards: seq<nat>, p: nat)
    requires Interleaves(order, shards) && p < |shards|
    ensures p in order
  {
    ProjectMembers(order, shards, shards[p]);
    ProjectMembers(Identity(|shards|), shards, shards[p]);
    assert Identity(|shards|)[p] == p;
  }

  lemma InterleavingKeepsKeys<K>(order: seq<nat>, shards: seq<nat>, keys: seq<K>)
    requires |shards| == |keys| && Interleaves(order, shards)
    requires forall p, q :: 0 <= p < |keys| && 0 <= q < |keys| && keys[p] == keys[q] ==> shards[p] == shards[q]
    ensures KeysInOrder(order, keys)
  {
    forall p | 0 <= p < |keys|
      ensures Project(order, keys, keys[p]) == Project(Identity(|keys|), keys, keys[p])
    {
      KeyOrderKept(order, shards, keys, keys[p], shards[p]);
    }
  }

  lemma IdentityInOrder<K>(keys: seq<K>)
    ensures KeysInOrder(Identity(|keys|), keys)
  {
  }

  lemma SameFinal<Cmd, K, V, R>(mc: Machine<Cmd, K, V, R>, cmds: seq<Cmd>, order: seq<nat>, m: map<K, V>, k: K)
    requires KeysInOrder(order, KeysOf(mc, cmds))
    requires forall p :: 0 <= p < |cmds| ==> p in order
    ensures At(RunOrder(mc, cmds, order, m, map[]).0, k) == At(RunOrder(mc, cmds, Identity(|cmds|), m, map[]).0, k)
  {
    var keys := KeysOf(mc, cmds);
    KeyView(mc, cmds, order, m, map[], k);
    KeyView(mc, cmds, Identity(|cmds|), m, map[], k);
    if p :| 0 <= p < |cmds| && keys[p] == k {
    } else {
      NoneProjected(order, keys, k);
      NoneProjected(Identity(|cmds|), keys, k);
    }
  }

  lemma {:induction false} NoneProjected<K>(order: seq<nat>, keys: seq<K>, k: K)
    requires InRange(order, |keys|) && forall p :: 0 <= p < |keys| ==> keys[p] != k
    ensures Project(order, keys, k) == []
  {
    if order != [] { NoneProjected(order[..|order| - 1], keys, k); }
  }

  lemma SameSlots<Cmd, K, V, R>(mc: Machine<Cmd, K, V, R>, cmds: seq<Cmd>, order: seq<nat>, m: map<K, V>)
    requires KeysInOrder(order, KeysOf(mc, cmds))
    requires forall p :: 0 <= p < |cmds| ==> p in order
    ensures forall p: nat :: At(RunOrder(mc, cmds, order, m, map[]).1, p) ==
                             if p < |cmds| then Some(Expected(mc, cmds, m, p)) else None
  {
    SlotsFilled(mc, cmds, order, |order|, m);
    assert order[..|order|] == order;
  }

  /** Every interleaving of the groups ends in the keyspace, and fills every slot with
      the reply, of running the positions in issue order. */
  lemma InterleavingsAgree<Cmd, K, V, R>(mc: Machine<Cmd, K, V, R>, cmds: seq<Cmd>, shards: seq<nat>,
                                         order: seq<nat>, m: map<K, V>)
    requires |shards| == |cmds| && Interleaves(order, shards)
    requires forall p, q :: 0 <= p < |cmds| && 0 <= q < |cmds| && mc.key(cmds[p]) == mc.key(cmds[q]) ==>
               shards[p] == shards[q]
    ensures RunOrder(mc, cmds, order, m, map[]) == RunOrder(mc, cmds, Identity(|cmds|), m, map[])
  {
    hide RunOrder, KeysOf, Project, Expected;
    var keys, id := KeysOf(mc, cmds), Identity(|cmds|);
    InterleavingKeepsKeys(order, shards, keys);
    IdentityInOrder(keys);
    forall p | 0 <= p < |cmds| ensures p in order { AllScheduled(order, shards, p); }
    var a, b := RunOrder(mc, cmds, order, m, map[]), RunOrder(mc, cmds, id, m, map[]);
    forall k ensures At(a.0, k) == At(b.0, k) { SameFinal(mc, cmds, order, m, k); }
    SameMap(a.0, b.0);
    SameSlots(mc, cmds, order, m);
    forall p | 0 <= p < |cmds| ensures p in id { assert id[p] == p; }
    SameSlots(mc, cmds, id, m);
    SameMap(a.1, b.1);
  }

  lemma SameMap<K, V>(a: map<K, V>, b: map<K, V>)
    requires forall k :: At(a, k) == At(b, k)
    ensures a == b
  {
    forall k ensures k in a <==> k in b { assert At(a, k) == At(b, k); }
    forall k | k in a ensures a[k] == b[k] { assert At(a, k) == At(b, k); }
  }

  /** The slots hold exactly the replies of the first n commands, in their positions. */
  ghost predicate SlotsAre<R>(out: map<nat, R>, rs: seq<R>) {
    && (forall p: nat :: p in out <==> p < |rs|)
    && (forall p: nat :: p < |rs| && p in out ==> out[p] == rs[p])
  }

  lemma SlotsGrow<R>(out: map<nat, R>, rs: seq<R>, r: R)
    requires SlotsAre(out, rs)
    ensures SlotsAre(out[|rs| := r], rs + [r])
  {
  }

  lemma NothingRun<Cmd, K, V, R>(mc: Machine<Cmd, K, V, R>, cmds: seq<Cmd>, m: map<K, V>)
    ensures InRange(Identity(0), |cmds|)
    ensures RunOrder(mc, cmds, Identity(0), m, map[]) == (m, map[])
    ensures OneByOne(mc, cmds[..0], m) == (m, []) && SlotsAre<R>(map[], [])
  {
    assert cmds[..0] == [];
  }

  lemma IdentitySnoc(n: nat)
    ensures Identity(n + 1) == Identity(n) + [n]
  {
  }

  lemma IdentityInRange(n: nat, m: nat)
    requires n <= m
    ensures InRange(Identity(n), m)
  {
  }

  lemma {:induction false} IdentityIsOneByOne<Cmd, K, V, R>(mc: Machine<Cmd, K, V, R>, cmds: seq<Cmd>, n: nat,
                                                            m: map<K, V>)
    requires n <= |cmds|
    ensures InRange(Identity(n), |cmds|)
    ensures var a, b := RunOrder(mc, cmds, Identity(n), m, map[]), OneByOne(mc, cmds[..n], m);
            a.0 == b.0 && |b.1| == n && SlotsAre(a.1, b.1)
    decreases n
  {
    hide Step, RunOrder, OneByOne, Identity, SlotsAre, InRange;
    IdentityInRange(n, |cmds|);
    if n == 0 {
      NothingRun(mc, cmds, m);
    } else {
      IdentityIsOneByOne(mc, cmds, n - 1, m);
      var a, b := RunOrder(mc, cmds, Identity(n - 1), m, map[]), OneByOne(mc, cmds[..n - 1], m);
      IdentitySnoc(n - 1);
      RunOrderSnoc(mc, cmds, Identity(n - 1), n - 1, m, map[]);
      OneByOneSnoc(mc, cmds[..n - 1], cmds[n - 1], m);
      assert cmds[..n] == cmds[..n - 1] + [cmds[n - 1]];
      SlotsGrow(a.1, b.1, Step(mc, cmds[n - 1], a.0).1);
    }
  }

  lemma RunOrderSnoc<Cmd, K, V, R>(mc: Machine<Cmd, K, V, R>, cmds: seq<Cmd>, order: seq<nat>, p: nat,
                                   m: map<K, V>, slots: map<nat, R>)
    requires InRange(order, |cmds|) && p < |cmds|
    ensures InRange(order + [p], |cmds|)
    ensures var a := RunOrder(mc, cmds, order, m, slots);
            var s := Step(mc, cmds[p], a.0);
            RunOrder(mc, cmds, order + [p], m, slots) == (s.0, a.1[p := s.1])
  {
    hide Step;
    assert (order + [p])[..|order|] == order;
  }

  lemma OneByOneSnoc<Cmd, K, V, R>(mc: Machine<Cmd, K, V, R>, cmds: seq<Cmd>, c: Cmd, m: map<K, V>)
    ensures var a := OneByOne(mc, cmds, m);
            var s := Step(mc, c, a.0);
            OneByOne(mc, cmds + [c], m) == (s.0, a.1 + [s.1])
  {
    hide Step;
    assert (cmds + [c])[..|cmds|] == cmds;
  }

  /** The replies in slot order. */
  function Collect<R>(out: map<nat, R>, n: nat): seq<R>
    requires forall p :: 0 <= p < n ==> p in out
  {
    seq(n, p requires 0 <= p < n => out[p])
  }

  /** The fan-out theorem: whatever the interleaving, the replies collected from the
      slots and the final keyspace are those of running the commands one by one. */
  lemma FanOutIsSequential<Cmd, K, V, R>(mc: Machine<Cmd, K, V, R>, cmds: seq<Cmd>, shards: seq<nat>,
                                         order: seq<nat>, m: map<K, V>)
    requires |shards| == |cmds| && Interleaves(order, shards)
    requires forall p, q :: 0 <= p < |cmds| && 0 <= q < |cmds| && mc.key(cmds[p]) == mc.key(cmds[q]) ==>
               shards[p] == shards[q]
    ensures var a := RunOrder(mc, cmds, order, m, map[]);
            && (forall p :: 0 <= p < |cmds| ==> p in a.1)
            && (a.0, Collect(a.1, |cmds|)) == OneByOne(mc, cmds, m)
  {
    hide RunOrder, OneByOne, Identity, Interleaves;
    Scheduled(order, shards);
    InterleavingsAgree(mc, cmds, shards, order, m);
    IdentityIsOneByOne(mc, cmds, |cmds|, m);
    assert cmds[..|cmds|] == cmds;
    assert Collect(RunOrder(mc, cmds, order, m, map[]).1, |cmds|) == OneByOne(mc, cmds, m).1;
  }

  // ------------------------------------------------------------- pipelined bursts

  type Cmd = C.Cmd

  /** The audited one-key commands (INCRBYFLOAT aside). */
  predicate Inlineable(v: C.Verb) {
    match v
    case GET => true case SET => true case GETSET => true case GETDEL => true case GETEX => true
    case INCR => true case DECR => true case INCRBY => true case DECRBY => true
    case APPEND => true case STRLEN => true
    case EXPIRE => true case PEXPIRE => true case EXPIREAT => true case PEXPIREAT => true
    case PERSIST => true case TTL => true case PTTL => true case TYPE => true
    case _ => false
  }

  /** `burstEligible`: an inlineable command that names a key. */
  predicate Eligible(c: Cmd) {
    Inlineable(c.verb) && c.args != []
  }

  function KeyArg(c: Cmd): string {
    if c.args == [] then "" else c.args[0]
  }

  /** The eligible commands as a machine: at the given clock, on one logical DB. */
  function Inline(now: int, db: nat): Machine<Cmd, Slot, C.Item, C.Reply> {
    Machine((c: Cmd) => Slot(db, KeyArg(c)),
            (c: Cmd, v: Option<C.Item>) =>
              C.KeyStep(now, c.verb, if c.args == [] then [] else c.args[1..], c.pick, v))
  }

  /** An eligible command through the machine is the command through Exec. */
  lemma InlineIsExec(now: int, db: nat, c: Cmd, ks: C.Keys)
    requires Eligible(c)
    ensures Step(Inline(now, db), c, ks) == C.Exec(now, db, c, ks)
  {
  }

  /** Commands one by one through Exec. */
  function ExecEach(now: int, db: nat, cmds: seq<Cmd>, ks: C.Keys): (C.Keys, seq<C.Reply>)
    decreases |cmds|
  {
    if cmds == [] then (ks, [])
    else
      var (ks1, rs) := ExecEach(now, db, cmds[..|cmds| - 1], ks);
      var (ks2, r) := C.Exec(now, db, cmds[|cmds| - 1], ks1);
      (ks2, rs + [r])
  }

  lemma {:induction false} EligibleOneByOne(now: int, db: nat, cmds: seq<Cmd>, ks: C.Keys)
    requires forall i :: 0 <= i < |cmds| ==> Eligible(cmds[i])
    ensures OneByOne(Inline(now, db), cmds, ks) == ExecEach(now, db, cmds, ks)
    decreases |cmds|
  {
    hide Inline, C.Exec, Step;
    if cmds != [] {
      EligibleOneByOne(now, db, cmds[..|cmds| - 1], ks);
      InlineIsExec(now, db, cmds[|cmds| - 1], ExecEach(now, db, cmds[..|cmds| - 1], ks).0);
    }
  }

  lemma {:induction false} ExecEachJoin(now: int, db: nat, a: seq<Cmd>, b: seq<Cmd>, ks: C.Keys)
    ensures var x := ExecEach(now, db, a, ks);
            var y := ExecEach(now, db, b, x.0);
            ExecEach(now, db, a + b, ks) == (y.0, x.1 + y.1)
    decreases |b|
  {
    hide C.Exec;
    var x := ExecEach(now, db, a, ks);
    if b == [] {
      assert a + b == a && x.1 + [] == x.1;
    } else {
      var front := b[..|b| - 1];
      ExecEachJoin(now, db, a, front, ks);
      assert (a + b)[..|a + b| - 1] == a + front && (a + b)[|a + b| - 1] == b[|b| - 1];
      var y := ExecEach(now, db, front, x.0);
      var r := C.Exec(now, db, b[|b| - 1], y.0).1;
      assert (x.1 + y.1) + [r] == x.1 + (y.1 + [r]);
    }
  }

  lemma Scheduled(order: seq<nat>, shards: seq<nat>)
    requires Interleaves(order, shards)
    ensures InRange(order, |shards|)
  {
  }

  lemma SameKeySameShard(now: int, db: nat, seg: seq<Cmd>, shards: seq<nat>)
    requires |shards| == |seg|
    requires forall p, q :: 0 <= p < |seg| && 0 <= q < |seg| && KeyArg(seg[p]) == KeyArg(seg[q]) ==>
               shards[p] == shards[q]
    ensures var mc := Inline(now, db);
            forall p, q :: 0 <= p < |seg| && 0 <= q < |seg| && mc.key(seg[p]) == mc.key(seg[q]) ==>
               shards[p] == shards[q]
  {
  }

  /** `execSegment`: the group tasks of one segment, in the interleaving that
      happened, filling the slots. */
  method ExecSegment(now: int, db: nat, seg: seq<Cmd>, shards: seq<nat>, order: seq<nat>, ks: C.Keys)
    returns (ks': C.Keys, replies: seq<C.Reply>)
    requires |shards| == |seg| && Interleaves(order, shards)
    requires forall i :: 0 <= i < |seg| ==> Eligible(seg[i])
    requires forall p, q :: 0 <= p < |seg| && 0 <= q < |seg| && KeyArg(seg[p]) == KeyArg(seg[q]) ==>
               shards[p] == shards[q]
    ensures (ks', replies) == ExecEach(now, db, seg, ks)
  {
    hide C.Exec, Inline, Step, Eligible, Interleaves, OneByOne, ExecEach;
    ghost var mc := Inline(now, db);
    var out: map<nat, C.Reply> := map[];
    ks' := ks;
    assert InRange(order, |seg|) by { Scheduled(order, shards); }
    SameKeySameShard(now, db, seg, shards);
    var i := 0;
    while i < |order|
      invariant 0 <= i <= |order|
      invariant (ks', out) == RunOrder(mc, seg, order[..i], ks, map[])
    {
      var p := order[i];
      assert order[..i + 1] == order[..i] + [p];
      RunOrderSnoc(mc, seg, order[..i], p, ks, map[]);
      InlineIsExec(now, db, seg[p], ks');
      var (next, r) := C.Exec(now, db, seg[p], ks');
      ks', out := next, out[p := r];
      i := i + 1;
    }
    assert order[..i] == order;
    FanOutIsSequential(mc, seg, shards, order, ks);
    EligibleOneByOne(now, db, seg, ks);
    replies := Collect(out, |seg|);
  }

  /** The shard of every command of a segment. */
  function Routes(route: string -> nat, seg: seq<Cmd>): (r: seq<nat>)
    ensures |r| == |seg| && forall i :: 0 <= i < |seg| ==> r[i] == route(KeyArg(seg[i]))
  {
    if seg == [] then [] else Routes(route, seg[..|seg| - 1]) + [route(KeyArg(seg[|seg| - 1]))]
  }

  lemma RoutesAgree(route: string -> nat, seg: seq<Cmd>)
    ensures var r := Routes(route, seg);
            forall p, q :: 0 <= p < |seg| && 0 <= q < |seg| && KeyArg(seg[p]) == KeyArg(seg[q]) ==> r[p] == r[q]
  {
  }

  lemma ExecNone(now: int, db: nat, ks: C.Keys)
    ensures ExecEach(now, db, [], ks) == (ks, [])
  {
  }

  lemma ExecEachSnoc(now: int, db: nat, cmds: seq<Cmd>, c: Cmd, ks: C.Keys)
    ensures var a := ExecEach(now, db, cmds, ks);
            var r := C.Exec(now, db, c, a.0);
            ExecEach(now, db, cmds + [c], ks) == (r.0, a.1 + [r.1])
  {
    hide C.Exec;
    assert (cmds + [c])[..|cmds|] == cmds;
  }

  /** `ExecuteBurst`, outside MULTI and with maxmemory off: maximal runs of eligible
      commands become segments, everything else takes the normal path.  `route` is the
      shard of a key and `sched` whatever interleaving each segment's groups ran in. */
  method ExecuteBurst(now: int, db: nat, cmds: seq<Cmd>, route: string -> nat, sched: seq<nat> -> seq<nat>, ks: C.Keys)
    returns (ks': C.Keys, vals: seq<C.Reply>)
    requires forall shards: seq<nat> :: Interleaves(sched(shards), shards)
    ensures (ks', vals) == ExecEach(now, db, cmds, ks)
  {
    hide C.Exec, Identity, Interleaves, ExecEach, Eligible, Routes, KeyArg;
    ks', vals := ks, [];
    ExecNone(now, db, ks);
    assert cmds[..0] == [];
    var k := 0;
    while k < |cmds|
      invariant 0 <= k <= |cmds|
      invariant (ks', vals) == ExecEach(now, db, cmds[..k], ks)
    {
      var end := k;
      while end < |cmds| && Eligible(cmds[end])
        invariant k <= end <= |cmds|
        invariant forall i :: k <= i < end ==> Eligible(cmds[i])
      {
        end := end + 1;
      }
      if end - k <= 1 {
        assert cmds[..k + 1] == cmds[..k] + [cmds[k]];
        ExecEachSnoc(now, db, cmds[..k], cmds[k], ks);
        var (next, r) := C.Exec(now, db, cmds[k], ks');
        ks', vals := next, vals + [r];
        k := k + 1;
      } else {
        var seg := cmds[k..end];
        var shards := Routes(route, seg);
        RoutesAgree(route, seg);
        var next, rs := ExecSegment(now, db, seg, shards, sched(shards), ks');
        ExecEachJoin(now, db, cmds[..k], seg, ks);
        assert cmds[..k] + seg == cmds[..end];
        ks', vals := next, vals + rs;
        k := end;
      }
    }
    assert cmds[..k] == cmds;
  }

  // ----------------------------------------------------------- multi-key fan-out

  lemma NothingProjected(shards: seq<nat>)
    ensures forall s: nat :: Project(Identity(0), shards, s) == []
  {
  }

  /** The grouping loop of DoMultiTok and execSegment: each shard's positions, in order. */
  method Groups(shards: seq<nat>) returns (groups: map<nat, seq<nat>>)
    ensures forall s: nat ::
              Project(Identity(|shards|), shards, s) == if s in groups then groups[s] else []
  {
    hide Project;
    groups := map[];
    var i := 0;
    assert forall s: nat :: Project(Identity(0), shards, s) == [] by { NothingProjected(shards); }
    while i < |shards|
      invariant 0 <= i <= |shards|
      invariant forall s: nat :: Project(Identity(i), shards, s) == if s in groups then groups[s] else []
    {
      var si := shards[i];
      ghost var before := groups;
      groups := groups[si := (if si in groups then groups[si] else []) + [i]];
      forall s: nat
        ensures Project(Identity(i + 1), shards, s) == if s in groups then groups[s] else []
      {
        ProjectSnoc(Identity(i), i, shards, s);
        assert Project(Identity(i), shards, s) == if s in before then before[s] else [];
      }
      i := i + 1;
    }
  }

  /** The share of one key in MGET, MSET, DEL and EXISTS. */
  datatype Part = GetPart(key: string) | SetPart(key: string, val: string) | DelPart(key: string)
      | ExistsPart(key: string)

  function PartStep(p: Part, v: Option<C.Item>): (Option<C.Item>, C.Reply) {
    match p
    case GetPart(_) => (v, if v.Some? && v.value.value.Str? then C.Blob(v.value.value.s) else C.Nil)
    case SetPart(_, val) => (Some(C.Item(C.Str(val), 0)), C.OK)
    case DelPart(_) => (None, C.Int(if v.Some? then 1 else 0))
    case ExistsPart(_) => (v, C.Int(if v.Some? then 1 else 0))
  }

  function Fan(db: nat): Machine<Part, Slot, C.Item, C.Reply> {
    Machine((p: Part) => Slot(db, p.key), (p: Part, v: Option<C.Item>) => PartStep(p, v))
  }

  /** `n.Add(1)` over the parts that found their key. */
  function Total(rs: seq<C.Reply>): int {
    if rs == [] then 0 else Total(rs[..|rs| - 1]) + (if rs[|rs| - 1].Int? then rs[|rs| - 1].n else 0)
  }

  function SlotsOf(db: nat, parts: seq<Part>): set<Slot> {
    set i | 0 <= i < |parts| :: Slot(db, parts[i].key)
  }

  lemma SlotsSnoc(db: nat, parts: seq<Part>)
    requires parts != []
    ensures SlotsOf(db, parts) == SlotsOf(db, parts[..|parts| - 1]) + {Slot(db, parts[|parts| - 1].key)}
  {
    var front, last := parts[..|parts| - 1], parts[|parts| - 1];
    forall s ensures s in SlotsOf(db, parts) <==> s in SlotsOf(db, front) + {Slot(db, last.key)} {
      if s in SlotsOf(db, parts) {
        var i :| 0 <= i < |parts| && s == Slot(db, parts[i].key);
        if i < |front| { assert front[i] == parts[i]; }
      }
      if s in SlotsOf(db, front) {
        var i :| 0 <= i < |front| && s == Slot(db, front[i].key);
        assert parts[i] == front[i];
      }
      assert parts[|parts| - 1].key == last.key;
    }
  }

  lemma CountGrows(have: set<Slot>, gone: set<Slot>, k: Slot)
    ensures |have * (gone + {k})| == |have * gone| + if k in have && k !in gone then 1 else 0
  {
    assert have * (gone + {k}) == if k in have && k !in gone then have * gone + {k} else have * gone;
  }

  lemma DelOne(db: nat, ks: C.Keys, gone: set<Slot>, p: Part)
    requires p.DelPart?
    ensures var r, k := Step(Fan(db), p, ks - gone), Slot(db, p.key);
            && r.0 == ks - (gone + {k})
            && r.1 == C.Int(if k in ks && k !in gone then 1 else 0)
  {
  }

  /** DEL, one key at a time: the keys named are gone, nothing else is, and the count is
      the number of distinct keys that were there. */
  lemma {:induction false} DelParts(db: nat, parts: seq<Part>, ks: C.Keys)
    requires forall i :: 0 <= i < |parts| ==> parts[i].DelPart?
    ensures var r := OneByOne(Fan(db), parts, ks);
            && r.0 == ks - SlotsOf(db, parts)
            && Total(r.1) == |ks.Keys * SlotsOf(db, parts)|
    decreases |parts|
  {
    hide Fan, Step, SlotsOf;
    if parts == [] {
      NoSlots(db);
      assert ks - {} == ks && ks.Keys * {} == {};
    } else {
      var front, last := parts[..|parts| - 1], parts[|parts| - 1];
      DelParts(db, front, ks);
      SlotsSnoc(db, parts);
      DelOne(db, ks, SlotsOf(db, front), last);
      CountGrows(ks.Keys, SlotsOf(db, front), Slot(db, last.key));
      TotalSnoc(OneByOne(Fan(db), front, ks).1, Step(Fan(db), last, ks - SlotsOf(db, front)).1);
    }
  }

  lemma NoSlots(db: nat)
    ensures SlotsOf(db, []) == {}
  {
  }

  lemma TotalSnoc(rs: seq<C.Reply>, r: C.Reply)
    ensures Total(rs + [r]) == Total(rs) + if r.Int? then r.n else 0
  {
    assert (rs + [r])[..|rs|] == rs;
  }

  lemma SetOne(db: nat, ks: C.Keys, p: Part, k: Slot)
    requires p.SetPart?
    ensures At(Step(Fan(db), p, ks).0, k) == if Slot(db, p.key) == k then Some(C.Item(C.Str(p.val), 0)) else At(ks, k)
  {
  }

  /** v is the value of the last mention of k, with no deadline. */
  ghost predicate LastMention(db: nat, parts: seq<Part>, k: Slot, v: Option<C.Item>) {
    exists i :: 0 <= i < |parts| && IsLast(db, parts, i, k) && v == Some(C.Item(C.Str(parts[i].val), 0))
  }

  predicate IsLast(db: nat, parts: seq<Part>, i: nat, k: Slot)
    requires i < |parts|
  {
    && parts[i].SetPart? && Slot(db, parts[i].key) == k
    && forall j :: i < j < |parts| ==> parts[j].key != k.key
  }

  lemma LastStays(db: nat, parts: seq<Part>, k: Slot, v: Option<C.Item>)
    requires parts != [] && LastMention(db, parts[..|parts| - 1], k, v) && parts[|parts| - 1].key != k.key
    ensures LastMention(db, parts, k, v)
  {
    var front := parts[..|parts| - 1];
    var i :| 0 <= i < |front| && IsLast(db, front, i, k) && v == Some(C.Item(C.Str(front[i].val), 0));
    assert forall j :: i < j < |front| ==> parts[j] == front[j] && front[j].key != k.key;
    assert IsLast(db, parts, i, k);
  }

  /** MSET, one key at a time: every key named holds the value of its last mention, with
      no deadline; every other key is untouched. */
  lemma {:induction false} SetParts(db: nat, parts: seq<Part>, ks: C.Keys, k: Slot)
    requires forall i :: 0 <= i < |parts| ==> parts[i].SetPart?
    ensures var v := At(OneByOne(Fan(db), parts, ks).0, k);
            && (k !in SlotsOf(db, parts) ==> v == At(ks, k))
            && (k in SlotsOf(db, parts) ==> LastMention(db, parts, k, v))
    decreases |parts|
  {
    hide Fan, Step, SlotsOf, LastMention, At;
    if parts == [] {
      NoSlots(db);
    } else {
      var front, last := parts[..|parts| - 1], parts[|parts| - 1];
      SetParts(db, front, ks, k);
      SlotsSnoc(db, parts);
      SetOne(db, OneByOne(Fan(db), front, ks).0, last, k);
      if Slot(db, last.key) == k {
        LastHere(db, parts, k);
      } else if k in SlotsOf(db, front) {
        SlotsDb(db, front, k);
        LastStays(db, parts, k, At(OneByOne(Fan(db), front, ks).0, k));
      }
    }
  }

  lemma LastHere(db: nat, parts: seq<Part>, k: Slot)
    requires parts != [] && parts[|parts| - 1].SetPart? && Slot(db, parts[|parts| - 1].key) == k
    ensures LastMention(db, parts, k, Some(C.Item(C.Str(parts[|parts| - 1].val), 0)))
  {
    assert IsLast(db, parts, |parts| - 1, k);
  }

  lemma SlotsDb(db: nat, parts: seq<Part>, k: Slot)
    requires k in SlotsOf(db, parts)
    ensures k.db == db
  {
  }

  /** The text stored at a key, if it holds one. */
  function TextAt(ks: C.Keys, k: Slot): Option<string> {
    if k in ks && ks[k].value.Str? then Some(ks[k].value.s) else None
  }

  /** MGET changes nothing, and every part answers with the text stored at its key, or nil
      when there is no key or it holds something else; duplicates included. */
  lemma {:induction false} GetParts(db: nat, parts: seq<Part>, ks: C.Keys)
    requires forall i :: 0 <= i < |parts| ==> parts[i].GetPart?
    ensures var r := OneByOne(Fan(db), parts, ks);
            && r.0 == ks && |r.1| == |parts|
            && forall i :: 0 <= i < |parts| ==>
                 var text := TextAt(ks, Slot(db, parts[i].key));
                 r.1[i] == if text.Some? then C.Blob(text.value) else C.Nil
    decreases |parts|
  {
    if parts != [] { GetParts(db, parts[..|parts| - 1], ks); }
  }

  /** The positions whose key is there. */
  function Present(db: nat, parts: seq<Part>, ks: C.Keys): set<nat> {
    set i: nat | 0 <= i < |parts| && Slot(db, parts[i].key) in ks
  }

  lemma PresentSnoc(db: nat, parts: seq<Part>, ks: C.Keys)
    requires parts != []
    ensures var front, n := Present(db, parts[..|parts| - 1], ks), |parts| - 1;
            && n !in front
            && Present(db, parts, ks) == front + if Slot(db, parts[n].key) in ks then {n} else {}
  {
    var front := parts[..|parts| - 1];
    assert forall i :: 0 <= i < |front| ==> front[i] == parts[i];
  }

  /** EXISTS changes nothing, every part answers 1 exactly for a key that is there, and the
      total is the number of positions whose key is there, duplicates counted. */
  lemma {:induction false} ExistsParts(db: nat, parts: seq<Part>, ks: C.Keys)
    requires forall i :: 0 <= i < |parts| ==> parts[i].ExistsPart?
    ensures var r := OneByOne(Fan(db), parts, ks);
            && r.0 == ks && |r.1| == |parts|
            && (forall i :: 0 <= i < |parts| ==> r.1[i] == C.Int(if Slot(db, parts[i].key) in ks then 1 else 0))
            && Total(r.1) == |Present(db, parts, ks)|
    decreases |parts|
  {
    hide Present;
    if parts == [] {
      NonePresent(db, ks);
    } else {
      var front, last := parts[..|parts| - 1], parts[|parts| - 1];
      ExistsParts(db, front, ks);
      PresentSnoc(db, parts, ks);
      OneExists(db, last, ks);
      TotalSnoc(OneByOne(Fan(db), front, ks).1, Step(Fan(db), last, ks).1);
    }
  }

  lemma NonePresent(db: nat, ks: C.Keys)
    ensures Present(db, [], ks) == {}
  {
  }

  lemma OneExists(db: nat, p: Part, ks: C.Keys)
    requires p.ExistsPart?
    ensures Step(Fan(db), p, ks) == (ks, C.Int(if Slot(db, p.key) in ks then 1 else 0))
  {
    var k := Slot(db, p.key);
    assert Put(ks, k, At(ks, k)) == ks;
  }

  /** The fan-out of MGET, MSET, DEL and EXISTS over any interleaving of the shards, with
      duplicate keys: the keyspace and the slots are those of the keys taken one by one. */
  lemma MultiKeyFanOut(db: nat, parts: seq<Part>, shards: seq<nat>, order: seq<nat>, ks: C.Keys)
    requires |shards| == |parts| && Interleaves(order, shards)
    requires forall p, q :: 0 <= p < |parts| && 0 <= q < |parts| && parts[p].key == parts[q].key ==>
               shards[p] == shards[q]
    ensures var a := RunOrder(Fan(db), parts, order, ks, map[]);
            && (forall p :: 0 <= p < |parts| ==> p in a.1)
            && (a.0, Collect(a.1, |parts|)) == OneByOne(Fan(db), parts, ks)
  {
    FanOutIsSequential(Fan(db), parts, shards, order, ks);
  }
}
