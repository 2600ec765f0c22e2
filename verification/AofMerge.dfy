/**
 The per-shard logs as one history (lib/persist/aof.go, lib/persist/replay.go): appends
 take their sequence number first and reach their log later, in any order; replay merges
 the logs by sequence number and executes each number once.
 */
module AofMerge {
  import opened Basics
  import opened Decimal
  import opened Resp
  import opened AofLog

  // ------------------------------------------------------------------ the logs together

  function Flat(logs: seq<seq<Rec>>): seq<Rec> {
    if logs == [] then [] else logs[0] + Flat(logs[1..])
  }

  /** `collectAOFRecords`: the records of the files in file order, after those in acc. */
  function CollectFiles(files: seq<string>, acc: seq<Rec>): Collected
    decreases |files|
  {
    if files == [] then Recs(acc)
    else
      var r := CollectFrom(files[0], 0, []);
      if r.Recs? then CollectFiles(files[1..], acc + r.recs) else r
  }

  method CollectAll(files: seq<string>) returns (r: Collected)
    ensures r == CollectFiles(files, [])
  {
    hide CollectFrom;
    var recs, i := [], 0;
    while i < |files|
      invariant 0 <= i <= |files|
      invariant CollectFiles(files[i..], recs) == CollectFiles(files, [])
    {
      var one := CollectLog(files[i]);
      if !one.Recs? { return one; }
      assert files[i..][1..] == files[i + 1..];
      recs, i := recs + one.recs, i + 1;
    }
    return Recs(recs);
  }

  /** The files written for these logs. */
  function Files(logs: seq<seq<Rec>>): (files: seq<string>)
    ensures |files| == |logs|
  {
    if logs == [] then [] else [LogBytes(logs[0])] + Files(logs[1..])
  }

  predicate EachWritable(logs: seq<seq<Rec>>) {
    forall i :: 0 <= i < |logs| ==> AllWritable(logs[i])
  }

  lemma {:induction false} FilesGiveRecords(logs: seq<seq<Rec>>, acc: seq<Rec>)
    requires EachWritable(logs)
    ensures CollectFiles(Files(logs), acc) == Recs(acc + Flat(logs))
    decreases |logs|
  {
    hide CollectFrom, LogBytes, AllWritable;
    if logs == [] {
      assert acc + [] == acc;
    } else {
      WholeLog(logs[0]);
      assert Files(logs)[1..] == Files(logs[1..]);
      FilesGiveRecords(logs[1..], acc + logs[0]);
      assert acc + logs[0] + Flat(logs[1..]) == acc + Flat(logs);
    }
  }

  lemma {:induction false} InFlat(logs: seq<seq<Rec>>, r: Rec)
    ensures r in Flat(logs) <==> exists i :: 0 <= i < |logs| && r in logs[i]
  {
    if logs != [] {
      InFlat(logs[1..], r);
      if r in Flat(logs[1..]) {
        var i :| 0 <= i < |logs[1..]| && r in logs[1..][i];
        assert r in logs[i + 1];
      }
      if i :| 0 <= i < |logs| && r in logs[i] {
        if i > 0 { assert logs[i] == logs[1..][i - 1]; }
      }
    }
  }

  // ------------------------------------------------------------------ the stable sort

  predicate Sorted(s: seq<Rec>) {
    forall i, j :: 0 <= i < j < |s| ==> s[i].num <= s[j].num
  }

  /** r in front of the first record of s whose number is not smaller. */
  function Insert(r: Rec, s: seq<Rec>): seq<Rec> {
    if s == [] || r.num <= s[0].num then [r] + s else [s[0]] + Insert(r, s[1..])
  }

  /** `sort.SliceStable` by sequence number. */
  function Sort(s: seq<Rec>): seq<Rec> {
    if s == [] then [] else Insert(s[0], Sort(s[1..]))
  }

  /** The records numbered n, in order. */
  function Numbered(s: seq<Rec>, n: nat): seq<Rec> {
    if s == [] then [] else (if s[0].num == n then [s[0]] else []) + Numbered(s[1..], n)
  }

  lemma {:induction false} InsertMembers(r: Rec, s: seq<Rec>)
    ensures multiset(Insert(r, s)) == multiset{r} + multiset(s)
  {
    if s == [] || r.num <= s[0].num {
    } else {
      InsertMembers(r, s[1..]);
      assert s == [s[0]] + s[1..];
    }
  }

  lemma SortedCons(x: Rec, t: seq<Rec>)
    requires Sorted(t) && (t != [] ==> x.num <= t[0].num)
    ensures Sorted([x] + t)
  {
    var u := [x] + t;
    forall i, j | 0 <= i < j < |u| ensures u[i].num <= u[j].num {
      assert u[j] == t[j - 1] && t[0].num <= t[j - 1].num;
      if i > 0 { assert u[i] == t[i - 1]; }
    }
  }

  lemma {:induction false} InsertSorted(r: Rec, s: seq<Rec>)
    requires Sorted(s)
    ensures Sorted(Insert(r, s))
  {
    if s == [] || r.num <= s[0].num {
      SortedCons(r, s);
    } else {
      var rest := s[1..];
      InsertSorted(r, rest);
      assert rest != [] ==> rest[0] == s[1];
      SortedCons(s[0], Insert(r, rest));
    }
  }

  lemma NumberedCons(x: Rec, t: seq<Rec>, n: nat)
    ensures Numbered([x] + t, n) == (if x.num == n then [x] else []) + Numbered(t, n)
  {
    assert ([x] + t)[1..] == t;
  }

  lemma {:induction false} InsertNumbered(r: Rec, s: seq<Rec>, n: nat)
    ensures Numbered(Insert(r, s), n) == Numbered([r] + s, n)
  {
    if s == [] || r.num <= s[0].num {
    } else {
      var rest := s[1..];
      InsertNumbered(r, rest, n);
      assert s == [s[0]] + rest;
      NumberedCons(s[0], Insert(r, rest), n);
      NumberedCons(r, rest, n);
      NumberedCons(s[0], rest, n);
      NumberedCons(r, s, n);
    }
  }

  /** The sort orders the records, keeps them all, and keeps equal numbers in order. */
  lemma {:induction false} SortSpec(s: seq<Rec>, n: nat)
    ensures Sorted(Sort(s)) && multiset(Sort(s)) == multiset(s)
    ensures Numbered(Sort(s), n) == Numbered(s, n)
  {
    if s != [] {
      hide Insert, Numbered, Sorted;
      var rest := s[1..];
      SortSpec(rest, n);
      InsertSorted(s[0], Sort(rest));
      InsertMembers(s[0], Sort(rest));
      InsertNumbered(s[0], Sort(rest), n);
      NumberedCons(s[0], Sort(rest), n);
      NumberedCons(s[0], rest, n);
      assert s == [s[0]] + rest;
    }
  }

  // ------------------------------------------------------------ one execution a number

  /** What is executed: each record unless the one before it has its number. */
  function Deduped(s: seq<Rec>): seq<Rec> {
    if s == [] then []
    else
      var front, r := s[..|s| - 1], s[|s| - 1];
      if front != [] && front[|front| - 1].num == r.num then Deduped(front) else Deduped(front) + [r]
  }

  function MaxNum(s: seq<Rec>): nat {
    if s == [] then 0
    else
      var m := MaxNum(s[..|s| - 1]);
      if s[|s| - 1].num > m then s[|s| - 1].num else m
  }

  /** The loop of replayAOF over the sorted records; `done` is what it executed. */
  method ReplaySorted(recs: seq<Rec>) returns (done: seq<Rec>, total: nat, maxSeq: nat)
    ensures done == Deduped(recs) && total == |done| && maxSeq == MaxNum(recs)
  {
    done, total, maxSeq := [], 0, 0;
    var lastSeq, i := 0, 0;
    while i < |recs|
      invariant 0 <= i <= |recs|
      invariant done == Deduped(recs[..i]) && total == |done| && maxSeq == MaxNum(recs[..i])
      invariant i > 0 ==> lastSeq == recs[i - 1].num
    {
      var r := recs[i];
      assert recs[..i + 1][..i] == recs[..i];
      if r.num > maxSeq { maxSeq := r.num; }
      if !(i > 0 && r.num == lastSeq) {
        lastSeq := r.num;
        done := done + [r];
        total := total + 1;
      }
      i := i + 1;
    }
    assert recs[..i] == recs;
  }

  /** The replay of the collected records. */
  function Replayed(recs: seq<Rec>): seq<Rec> {
    Deduped(Sort(recs))
  }

  /** `replayAOF`: all logs, merged; None when a log does not parse. */
  method ReplayFiles(files: seq<string>) returns (done: Option<seq<Rec>>, maxSeq: nat)
    ensures done.Some? == CollectFiles(files, []).Recs?
    ensures done.Some? ==> done.value == Replayed(CollectFiles(files, []).recs)
                           && maxSeq == MaxNum(CollectFiles(files, []).recs)
  {
    hide CollectFiles, Sort, Deduped, MaxNum;
    var all := CollectAll(files);
    if !all.Recs? { return None, 0; }
    var executed, _, top := ReplaySorted(Sort(all.recs));
    MaxOfSort(all.recs);
    return Some(executed), top;
  }

  predicate Ascending(s: seq<Rec>) {
    forall i, j :: 0 <= i < j < |s| ==> s[i].num < s[j].num
  }

  /** Equal sequence numbers carry equal records. */
  ghost predicate Agree(s: seq<Rec>) {
    forall a, b :: a in s && b in s && a.num == b.num ==> a == b
  }

  /** Every number of s is there. */
  ghost predicate Covers(d: seq<Rec>, s: seq<Rec>) {
    forall r :: r in s ==> HasNumber(d, r.num)
  }

  ghost predicate HasNumber(d: seq<Rec>, n: nat) {
    exists e :: e in d && e.num == n
  }

  lemma {:induction false} DedupedMembers(s: seq<Rec>)
    ensures forall r :: r in Deduped(s) ==> r in s
  {
    if s != [] {
      DedupedMembers(s[..|s| - 1]);
      assert s == s[..|s| - 1] + [s[|s| - 1]];
    }
  }

  lemma {:induction false} DedupedCovers(s: seq<Rec>)
    ensures Covers(Deduped(s), s)
  {
    if s != [] {
      var front, last := s[..|s| - 1], s[|s| - 1];
      DedupedCovers(front);
      assert s == front + [last];
      var d := Deduped(front);
      forall r | r in s ensures HasNumber(Deduped(s), r.num) {
        if r in front {
          var e :| e in d && e.num == r.num;
          assert e in Deduped(s);
        } else if front != [] && front[|front| - 1].num == last.num {
          assert HasNumber(d, front[|front| - 1].num);
        } else {
          assert last in Deduped(s);
        }
      }
    }
  }

  lemma {:induction false} DedupedAscends(s: seq<Rec>)
    requires Sorted(s)
    ensures Ascending(Deduped(s))
  {
    if s != [] {
      var front, last := s[..|s| - 1], s[|s| - 1];
      DedupedAscends(front);
      var d := Deduped(front);
      if front == [] || front[|front| - 1].num != last.num {
        DedupedMembers(front);
        forall r | r in d ensures r.num < last.num {
          var i :| 0 <= i < |front| && front[i] == r;
          assert s[i].num <= s[|front| - 1].num <= last.num;
        }
        assert forall i :: 0 <= i < |d| ==> d[i] in d;
      }
    }
  }

  lemma SortKeepsMembers(s: seq<Rec>)
    ensures Sorted(Sort(s)) && forall r :: r in Sort(s) <==> r in s
  {
    SortSpec(s, 0);
    forall r ensures r in Sort(s) <==> r in s {
      assert r in Sort(s) <==> r in multiset(Sort(s));
    }
  }

  /** Replay executes every number once, in ascending order, and only collected records. */
  lemma ReplayIsOncePerNumber(recs: seq<Rec>)
    ensures Ascending(Replayed(recs))
    ensures forall r :: r in Replayed(recs) ==> r in recs
    ensures Covers(Replayed(recs), recs)
  {
    hide Sort, Deduped, Sorted, HasNumber;
    SortKeepsMembers(recs);
    DedupedAscends(Sort(recs));
    DedupedMembers(Sort(recs));
    DedupedCovers(Sort(recs));
  }

  /** Where equal numbers carry equal records, it executes exactly the collected ones. */
  lemma ReplayIsExact(recs: seq<Rec>)
    requires Agree(recs)
    ensures Ascending(Replayed(recs)) && forall r :: r in Replayed(recs) <==> r in recs
  {
    hide Replayed;
    ReplayIsOncePerNumber(recs);
    forall r | r in recs ensures r in Replayed(recs) {
      assert HasNumber(Replayed(recs), r.num);
      var e :| e in Replayed(recs) && e.num == r.num;
      assert e in recs;
    }
  }

  lemma {:induction false} NumberedSnoc(s: seq<Rec>, x: Rec, n: nat)
    ensures Numbered(s + [x], n) == Numbered(s, n) + if x.num == n then [x] else []
    decreases |s|
  {
    hide Numbered;
    if s == [] {
      NumberedCons(x, [], n);
      NoneNumbered(n);
      assert s + [x] == [x] + [];
    } else {
      var y, rest := s[0], s[1..];
      NumberedSnoc(rest, x, n);
      NumberedCons(y, rest, n);
      NumberedCons(y, rest + [x], n);
      assert s + [x] == [y] + (rest + [x]) && s == [y] + rest;
    }
  }

  lemma NoneNumbered(n: nat)
    ensures Numbered([], n) == []
  {
  }

  lemma {:induction false} NumberedIn(s: seq<Rec>, n: nat)
    ensures Numbered(s, n) == [] <==> forall r :: r in s ==> r.num != n
    decreases |s|
  {
    if s != [] {
      NumberedIn(s[1..], n);
      assert s == [s[0]] + s[1..];
    }
  }

  lemma {:induction false} DedupedFirst(s: seq<Rec>)
    requires Sorted(s)
    ensures forall r :: r in Deduped(s) ==> Numbered(s, r.num) != [] && Numbered(s, r.num)[0] == r
    decreases |s|
  {
    hide Numbered;
    if s != [] {
      var front, last := s[..|s| - 1], s[|s| - 1];
      DedupedFirst(front);
      assert s == front + [last];
      forall r | r in Deduped(s) ensures Numbered(s, r.num) != [] && Numbered(s, r.num)[0] == r {
        NumberedSnoc(front, last, r.num);
        NumberedIn(front, r.num);
        if r !in Deduped(front) {
          forall x | x in front ensures x.num != last.num {
            var i :| 0 <= i < |front| && front[i] == x;
            assert s[i].num <= s[|front| - 1].num <= last.num;
          }
        }
      }
    }
  }

  /** Of several records with one number, the first one collected is executed. */
  lemma FirstIsReplayed(recs: seq<Rec>)
    ensures forall r :: r in Replayed(recs) ==> Numbered(recs, r.num) != [] && Numbered(recs, r.num)[0] == r
  {
    hide Sort, Deduped, Numbered, Sorted;
    SortSpec(recs, 0);
    DedupedFirst(Sort(recs));
    forall n { SortSpec(recs, n); }
  }

  lemma StaysNonEmpty(a: seq<Rec>, b: seq<Rec>)
    requires a != [] && forall r :: r in a <==> r in b
    ensures b != []
  {
    assert a[0] in b;
  }

  /** Two ascending sequences with the same members are the same. */
  lemma {:induction false} AscendingIsUnique(a: seq<Rec>, b: seq<Rec>)
    requires Ascending(a) && Ascending(b) && forall r :: r in a <==> r in b
    ensures a == b
    decreases |a|
  {
    if a == [] {
      if b != [] { StaysNonEmpty(b, a); }
    } else {
      var x := a[|a| - 1];
      assert x in b;
      var y := b[|b| - 1];
      assert y in a;
      assert x.num >= y.num && y.num >= x.num;
      assert x == y;
      var f, g := a[..|a| - 1], b[..|b| - 1];
      forall r ensures r in f <==> r in g {
        LastAside(a, r);
        LastAside(b, r);
      }
      AscendingIsUnique(f, g);
      assert a == f + [x] && b == g + [y];
    }
  }

  lemma LastAside(a: seq<Rec>, r: Rec)
    requires a != [] && Ascending(a)
    ensures r in a[..|a| - 1] <==> r in a && r != a[|a| - 1]
  {
    assert a == a[..|a| - 1] + [a[|a| - 1]];
  }

  /** The append order, within and across the logs, does not matter. */
  lemma ReplayIgnoresOrder(one: seq<Rec>, two: seq<Rec>)
    requires Agree(one) && forall r :: r in one <==> r in two
    ensures Replayed(one) == Replayed(two)
  {
    hide Replayed;
    ReplayIsExact(one);
    ReplayIsExact(two);
    AscendingIsUnique(Replayed(one), Replayed(two));
  }

  lemma {:induction false} MaxNumBounds(s: seq<Rec>)
    ensures forall r :: r in s ==> r.num <= MaxNum(s)
    ensures s != [] ==> exists r :: r in s && r.num == MaxNum(s)
  {
    if s != [] {
      var front, r := s[..|s| - 1], s[|s| - 1];
      MaxNumBounds(front);
      assert s == front + [r];
      if r.num > MaxNum(front) || front == [] {
        assert r in s && r.num == MaxNum(s);
      } else {
        var e :| e in front && e.num == MaxNum(front);
        assert e in s;
      }
    }
  }

  lemma MaxOfSort(s: seq<Rec>)
    ensures MaxNum(Sort(s)) == MaxNum(s)
  {
    hide Sort, MaxNum, Sorted;
    SortKeepsMembers(s);
    MaxNumBounds(s);
    MaxNumBounds(Sort(s));
    if s != [] { StaysNonEmpty(s, Sort(s)); }
    if Sort(s) != [] { StaysNonEmpty(Sort(s), s); }
  }

  // --------------------------------------------------------- appends, in any schedule

  /** A copy of a record on its way to a log. */
  datatype Copy = Copy(log: nat, rec: Rec)

  /** `next` is the sequence counter; `issued` is the history: the records numbered so
      far, in order. */
  datatype Sys = Sys(next: nat, pending: set<Copy>, logs: seq<seq<Rec>>, issued: seq<Rec>)

  /** Append and AppendAll take a number; Write is one log's mutex section; Restart loses
      what was not written, replays, and goes on above the highest number found. */
  datatype Event =
    | Append(log: nat, db: int, argv: seq<string>)
    | AppendAll(db: int, argv: seq<string>)
    | Write(copy: Copy)
    | Restart

  predicate Enabled(s: Sys, e: Event) {
    match e
    case Append(log, db, argv) => log < |s.logs| && Writable(Rec(s.next + 1, db, argv))
    case AppendAll(db, argv) => Writable(Rec(s.next + 1, db, argv))
    case Write(c) => c in s.pending && c.log < |s.logs|
    case Restart => true
  }

  function Copies(n: nat, r: Rec): set<Copy> {
    set i | 0 <= i < n :: Copy(i, r)
  }

  function Apply(s: Sys, e: Event): Sys
    requires Enabled(s, e)
  {
    match e
    case Append(log, db, argv) =>
      var r := Rec(s.next + 1, db, argv);
      Sys(s.next + 1, s.pending + {Copy(log, r)}, s.logs, s.issued + [r])
    case AppendAll(db, argv) =>
      var r := Rec(s.next + 1, db, argv);
      Sys(s.next + 1, s.pending + Copies(|s.logs|, r), s.logs, s.issued + [r])
    case Write(c) =>
      s.(pending := s.pending - {c}, logs := s.logs[c.log := s.logs[c.log] + [c.rec]])
    case Restart =>
      Sys(MaxNum(Flat(s.logs)), {}, s.logs, Replayed(Flat(s.logs)))
  }

  predicate AllEnabled(s: Sys, es: seq<Event>)
    decreases |es|
  {
    es == [] || (Enabled(s, es[0]) && AllEnabled(Apply(s, es[0]), es[1..]))
  }

  function Run(s: Sys, es: seq<Event>): Sys
    requires AllEnabled(s, es)
    decreases |es|
  {
    if es == [] then s else Run(Apply(s, es[0]), es[1..])
  }

  ghost predicate OnItsWay(s: Sys, r: Rec) {
    exists c :: c in s.pending && c.rec == r
  }

  ghost predicate Inv(s: Sys) {
    && s.logs != []
    && Ascending(s.issued) && AllWritable(s.issued)
    && (forall r :: r in s.issued ==> r.num <= s.next)
    && (forall c :: c in s.pending ==> c.log < |s.logs| && c.rec in s.issued)
    && (forall r :: r in Flat(s.logs) ==> r in s.issued)
    && (forall r :: r in s.issued ==> r in Flat(s.logs) || OnItsWay(s, r))
  }

  lemma AscendingAgrees(s: seq<Rec>, t: seq<Rec>)
    requires Ascending(s) && forall r :: r in t ==> r in s
    ensures Agree(t)
  {
    forall a, b | a in t && b in t && a.num == b.num ensures a == b {
      var i :| 0 <= i < |s| && s[i] == a;
      var j :| 0 <= j < |s| && s[j] == b;
      assert i == j;
    }
  }

  lemma FlatWrite(logs: seq<seq<Rec>>, i: nat, x: Rec, r: Rec)
    requires i < |logs|
    ensures r in Flat(logs[i := logs[i] + [x]]) <==> r in Flat(logs) || r == x
  {
    hide Flat;
    var after := logs[i := logs[i] + [x]];
    InFlat(logs, r);
    InFlat(after, r);
    if r == x { assert r in after[i]; }
    if k :| 0 <= k < |logs| && r in logs[k] { assert r in after[k]; }
    if k :| 0 <= k < |after| && r in after[k] && r != x { assert r in logs[k]; }
  }

  lemma NumberedKeepsInv(s: Sys, r: Rec, copies: set<Copy>)
    requires Inv(s) && Writable(r) && r.num == s.next + 1
    requires exists c :: c in copies
    requires forall c :: c in copies ==> c.log < |s.logs| && c.rec == r
    ensures Inv(Sys(s.next + 1, s.pending + copies, s.logs, s.issued + [r]))
  {
    hide Flat, Writable;
    var t := Sys(s.next + 1, s.pending + copies, s.logs, s.issued + [r]);
    assert Ascending(t.issued) by {
      forall i, j | 0 <= i < j < |t.issued| ensures t.issued[i].num < t.issued[j].num {
        assert s.issued[i] in s.issued;
      }
    }
    forall x | x in t.issued ensures x in Flat(t.logs) || OnItsWay(t, x) {
      if x in s.issued && x !in Flat(s.logs) {
        var c :| c in s.pending && c.rec == x;
        assert c in t.pending;
      } else if x == r {
        var c :| c in copies;
        assert c in t.pending && c.rec == x;
      }
    }
  }

  lemma WriteKeepsInv(s: Sys, c: Copy)
    requires Inv(s) && Enabled(s, Write(c))
    ensures Inv(Apply(s, Write(c)))
  {
    hide Flat, AllWritable, Ascending;
    var t := Apply(s, Write(c));
    forall r ensures r in Flat(t.logs) <==> r in Flat(s.logs) || r == c.rec {
      FlatWrite(s.logs, c.log, c.rec, r);
    }
    forall r | r in t.issued ensures r in Flat(t.logs) || OnItsWay(t, r) {
      if r !in Flat(s.logs) && r != c.rec {
        var d :| d in s.pending && d.rec == r;
        assert d in t.pending;
      }
    }
  }

  lemma RestartKeepsInv(s: Sys)
    requires Inv(s)
    ensures Inv(Apply(s, Restart))
  {
    hide Flat, Replayed, MaxNum, Writable, Ascending;
    var recs := Flat(s.logs);
    AscendingAgrees(s.issued, recs);
    ReplayIsExact(recs);
    MaxNumBounds(recs);
    var done := Replayed(recs);
    forall k | 0 <= k < |done| ensures Writable(done[k]) {
      assert done[k] in recs;
    }
  }

  lemma StepKeepsInv(s: Sys, e: Event)
    requires Inv(s) && Enabled(s, e)
    ensures Inv(Apply(s, e))
  {
    hide Inv;
    match e
    case Append(log, db, argv) =>
      var r := Rec(s.next + 1, db, argv);
      assert Copy(log, r) in {Copy(log, r)};
      NumberedKeepsInv(s, r, {Copy(log, r)});
    case AppendAll(db, argv) =>
      var r := Rec(s.next + 1, db, argv);
      assert |s.logs| > 0 by { LogsExist(s); }
      assert Copy(0, r) in Copies(|s.logs|, r);
      NumberedKeepsInv(s, r, Copies(|s.logs|, r));
    case Write(c) => WriteKeepsInv(s, c);
    case Restart => RestartKeepsInv(s);
  }

  lemma LogsExist(s: Sys)
    requires Inv(s)
    ensures s.logs != []
  {
  }

  lemma {:induction false} RunKeepsInv(s: Sys, es: seq<Event>)
    requires Inv(s) && AllEnabled(s, es)
    ensures Inv(Run(s, es))
    decreases |es|
  {
    hide Inv, Enabled, Apply;
    if es != [] {
      StepKeepsInv(s, es[0]);
      RunKeepsInv(Apply(s, es[0]), es[1..]);
    }
  }

  /** The files of a freshly opened directory with n logs. */
  function Start(n: nat): Sys {
    Sys(0, {}, seq(n, i => []), [])
  }

  lemma {:induction false} FlatOfEmpty(logs: seq<seq<Rec>>)
    requires forall i :: 0 <= i < |logs| ==> logs[i] == []
    ensures Flat(logs) == []
  {
    if logs != [] { FlatOfEmpty(logs[1..]); }
  }

  lemma EmptyAscends()
    ensures Ascending([])
  {
  }

  lemma LogsWritable(s: Sys)
    requires Inv(s)
    ensures EachWritable(s.logs)
  {
    hide Flat, Writable, Ascending;
    forall i, k | 0 <= i < |s.logs| && 0 <= k < |s.logs[i]| ensures Writable(s.logs[i][k]) {
      var r := s.logs[i][k];
      InFlat(s.logs, r);
      var j :| 0 <= j < |s.issued| && s.issued[j] == r;
    }
  }

  /** In every run of appends, broadcasts, log writes and restarts, at every moment:
      replaying the bytes of the logs executes, in ascending order and once each, exactly
      the numbered records of which some copy has reached a log; and once no write is
      outstanding, exactly the whole history. */
  lemma ReplayIsTheHistory(n: nat, es: seq<Event>)
    requires n > 0 && AllEnabled(Start(n), es)
    ensures var s := Run(Start(n), es);
            && CollectFiles(Files(s.logs), []) == Recs(Flat(s.logs))
            && Ascending(Replayed(Flat(s.logs)))
            && (forall r :: r in Replayed(Flat(s.logs)) <==> r in s.issued && r in Flat(s.logs))
            && (s.pending == {} ==> Replayed(Flat(s.logs)) == s.issued)
  {
    hide Flat, Replayed, Ascending, Writable, Run, AllEnabled, CollectFiles, Files;
    FlatOfEmpty(Start(n).logs);
    assert Inv(Start(n)) by { EmptyAscends(); }
    RunKeepsInv(Start(n), es);
    var s := Run(Start(n), es);
    AscendingAgrees(s.issued, Flat(s.logs));
    ReplayIsExact(Flat(s.logs));
    LogsWritable(s);
    FilesGiveRecords(s.logs, []);
    assert [] + Flat(s.logs) == Flat(s.logs);
    if s.pending == {} { AscendingIsUnique(Replayed(Flat(s.logs)), s.issued); }
  }

  /** What each event does to copies and logs: an append has its one copy on the way to its
      log, a broadcast one copy on the way to every log, and a write moves a copy to the end
      of its log and leaves the other logs alone. */
  lemma CopiesGoWhereTheyShould(s: Sys, e: Event)
    requires Enabled(s, e)
    ensures var t := Apply(s, e);
            match e
            case Append(log, db, argv) =>
              && t.logs == s.logs && t.next == s.next + 1 && t.issued == s.issued + [Rec(s.next + 1, db, argv)]
              && t.pending == s.pending + {Copy(log, Rec(s.next + 1, db, argv))}
            case AppendAll(db, argv) =>
              && t.logs == s.logs && t.next == s.next + 1 && t.issued == s.issued + [Rec(s.next + 1, db, argv)]
              && forall c :: c in t.pending <==>
                   c in s.pending || (c.log < |s.logs| && c.rec == Rec(s.next + 1, db, argv))
            case Write(c) =>
              && c !in t.pending && t.pending == s.pending - {c} && |t.logs| == |s.logs|
              && forall i :: 0 <= i < |s.logs| ==> t.logs[i] == if i == c.log then s.logs[i] + [c.rec] else s.logs[i]
            case Restart =>
              && t.logs == s.logs && t.pending == {}
              && (forall r :: r in Flat(s.logs) ==> r.num <= t.next)
              && (if Flat(s.logs) == [] then t.next == 0 else exists r :: r in Flat(s.logs) && r.num == t.next)
  {
    hide Flat, MaxNum, Replayed;
    if e.Restart? { MaxNumBounds(Flat(s.logs)); NoMaximum(); }
  }

  lemma NoMaximum()
    ensures MaxNum([]) == 0
  {
  }

  // ------------------------------------------------------------- the set of open logs

  /** `aofSet`: the sequence counter and the contents of the log files.  `recs` are the
      records those contents encode. */
  class LogSet {
    var num: nat
    var files: seq<string>
    ghost var recs: seq<seq<Rec>>

    ghost predicate Valid()
      reads this
    {
      files == Files(recs)
    }

    constructor (shards: nat, base: nat)
      ensures Valid() && num == base && |files| == shards && Flat(recs) == []
    {
      num := base;
      files := seq(shards, i => []);
      recs := seq(shards, i => []);
      new;
      FlatOfEmpty(recs);
      FilesOfEmpty(recs);
      assert files == Files(recs);
    }

    /** `appendSeq`: one record at the end of one log. */
    method AppendSeq(i: nat, db: int, n: nat, argv: seq<string>)
      requires Valid() && i < |files|
      modifies this
      ensures Valid() && num == old(num)
      ensures files == old(files)[i := old(files)[i] + Array(Stamp(Rec(n, db, argv)))]
      ensures recs == old(recs)[i := old(recs)[i] + [Rec(n, db, argv)]]
    {
      hide Array, Stamp, LogBytes;
      var r := Rec(n, db, argv);
      FilesAppend(recs, i, r);
      files := files[i := files[i] + Array(Stamp(r))];
      recs := recs[i := recs[i] + [r]];
    }

    method AppendRecord(i: nat, db: int, argv: seq<string>)
      requires Valid() && i < |files|
      modifies this
      ensures Valid() && num == old(num) + 1
      ensures recs == old(recs)[i := old(recs)[i] + [Rec(num, db, argv)]]
    {
      num := num + 1;
      AppendSeq(i, db, num, argv);
    }

    /** The broadcast: one number, a copy in every log. */
    method AppendToAll(db: int, argv: seq<string>)
      requires Valid()
      modifies this
      ensures Valid() && num == old(num) + 1 && |recs| == |old(recs)|
      ensures forall k :: 0 <= k < |recs| ==> recs[k] == old(recs)[k] + [Rec(num, db, argv)]
    {
      num := num + 1;
      var i := 0;
      while i < |files|
        invariant 0 <= i <= |files| == |recs| == |old(recs)|
        invariant Valid() && num == old(num) + 1
        invariant forall k :: 0 <= k < i ==> recs[k] == old(recs)[k] + [Rec(num, db, argv)]
        invariant forall k :: i <= k < |recs| ==> recs[k] == old(recs)[k]
      {
        AppendSeq(i, db, num, argv);
        i := i + 1;
      }
    }
  }

  lemma {:induction false} FilesAt(logs: seq<seq<Rec>>, i: nat)
    requires i < |logs|
    ensures Files(logs)[i] == LogBytes(logs[i])
  {
    hide LogBytes;
    if i > 0 { FilesAt(logs[1..], i - 1); }
  }

  lemma FilesOfEmpty(logs: seq<seq<Rec>>)
    requires forall i :: 0 <= i < |logs| ==> logs[i] == []
    ensures forall i :: 0 <= i < |logs| ==> Files(logs)[i] == []
  {
    forall i | 0 <= i < |logs| ensures Files(logs)[i] == [] {
      FilesAt(logs, i);
    }
  }

  lemma {:induction false} LogBytesSnoc(rs: seq<Rec>, r: Rec)
    ensures LogBytes(rs + [r]) == LogBytes(rs) + Array(Stamp(r))
  {
    hide Array, Stamp;
    if rs == [] {
      assert rs + [r] == [r];
    } else {
      LogBytesSnoc(rs[1..], r);
      assert (rs + [r])[1..] == rs[1..] + [r];
    }
  }

  lemma FilesAppend(logs: seq<seq<Rec>>, i: nat, r: Rec)
    requires i < |logs|
    ensures Files(logs[i := logs[i] + [r]]) == Files(logs)[i := Files(logs)[i] + Array(Stamp(r))]
  {
    hide Array, Stamp, LogBytes, Files;
    var after := logs[i := logs[i] + [r]];
    forall k | 0 <= k < |logs| ensures Files(after)[k] == Files(logs)[i := Files(logs)[i] + Array(Stamp(r))][k] {
      FilesAt(logs, k);
      FilesAt(after, k);
      if k == i { LogBytesSnoc(logs[i], r); }
    }
  }
}
