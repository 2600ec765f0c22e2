/**
 What becomes of a tolerated torn tail (lib/persist/aof.go `openAOF`, replay.go): it is
 not removed before appending resumes, so the next records are written behind part of a
 record.  For every cut and all records appended after it: how the log then reads, and
 that it never reads as the records before the cut followed by those appended, unless the
 first of these has the number of the torn one, which can be given out again after a
 restart, and quotes the beginning of its own encoding in an argument.  Such records are
 built at the end.
 */
module AofTail {
  import opened Basics
  import opened Decimal
  import opened Resp
  import opened AofLog

  // ----------------------------------------------------------- a text cut and continued

  /** t is u up to offset m, and goes on with a star, as every record begins. */
  ghost predicate Spliced(t: string, u: string, m: nat) {
    m < |t| && m <= |u| && t[..m] == u[..m] && t[m] == '*'
  }

  lemma SplicedChar(t: string, u: string, m: nat, k: nat)
    requires Spliced(t, u, m) && k < m
    ensures t[k] == u[k]
  {
    assert t[..m][k] == u[..m][k];
  }

  lemma SplicedSlice(t: string, u: string, m: nat, x: nat, y: nat)
    requires Spliced(t, u, m) && x <= y <= m
    ensures t[x..y] == u[x..y]
  {
    SliceOfPrefix(t, m, x, y);
    SliceOfPrefix(u, m, x, y);
  }

  lemma StarIsNoNumber(s: string)
    requires '*' in s
    ensures Atoi(s).None? && ParseUint(s).None?
  {
    var k :| 0 <= k < |s| && s[k] == '*';
    assert !IsDigit(s[k]);
    if s[0] == '-' || s[0] == '+' { assert s[1..][k - 1] == '*'; }
  }

  /** A header of which the cut left nothing but a part does not read as a number. */
  lemma CutNumber(t: string, u: string, m: nat, i: nat, c: char, n: nat)
    requires StandsAt(u, i, Header(c, n)) && Spliced(t, u, m) && i < m < i + |Header(c, n)|
    ensures !ParseNumber(t, i + 1).Num?
    ensures FeedFollows(t, m) ==> ParseNumber(t, i + 1) == NumBad
  {
    hide Header, Digits, Atoi, StandsAt, Spliced;
    HeaderParts(u, i, c, n);
    var e := i + 1 + |Digits(n)|;
    SplicedEnd(t, u, m);
    forall k | i < k < m && k < e ensures t[k] == u[k] && t[k] != '\r' {
      SplicedChar(t, u, m, k);
    }
    var j := CrAt(t, i + 1);
    if m <= e {
      assert m < j by { assert t[m] == '*'; }
      assert '*' in t[i + 1..j] by { assert t[i + 1..j][m - i - 1] == '*'; }
      StarIsNoNumber(t[i + 1..j]);
    } else {
      SplicedChar(t, u, m, e);
      assert j == e && t[e + 1] == '*';
    }
  }

  lemma SplicedEnd(t: string, u: string, m: nat)
    requires Spliced(t, u, m)
    ensures m < |t| && t[m] == '*'
  {
  }

  /** The next carriage return after the cut is there, with its line feed. */
  predicate FeedFollows(t: string, m: nat)
    requires m <= |t|
  {
    var j := CrAt(t, m); j + 1 < |t| && t[j + 1] == '\n'
  }

  // ----------------------------------------------------------------- one bulk string

  /** The argument ends with the beginning of the text y, up to a line end. */
  ghost predicate Swallows(y: string, s: string) {
    y != [] && y[0] == '*' && exists q: nat :: SwallowsAt(y, s, q)
  }

  predicate SwallowsAt(y: string, s: string, q: nat) {
    0 < q <= |s| && q + 2 <= |y| && s[|s| - q..] == y[..q] && y[q..q + 2] == CRLF
  }

  lemma StarSwallowed(y: string, s: string)
    requires Swallows(y, s)
    ensures '*' in s
  {
    var q: nat :| SwallowsAt(y, s, q);
    assert s[|s| - q..][0] == y[..q][0];
  }

  lemma FilledUp(t: string, m: nat, k: nat, n: nat)
    requires k <= m < k + n && k + n + 2 <= |t| && t[m] == '*' && t[k + n] == '\r' && t[k + n + 1] == '\n'
    ensures Swallows(t[m..], t[k..k + n])
  {
    var y, s, q := t[m..], t[k..k + n], k + n - m;
    assert s[|s| - q..] == t[m..k + n] == y[..q];
    assert y[q..q + 2] == t[k + n..k + n + 2] == CRLF;
    assert SwallowsAt(y, s, q);
  }

  /** A bulk string cut at m.  If the cut is in its content, the bytes behind the cut fill
      it up; anywhere else it cannot be read. */
  lemma CutBulk(t: string, u: string, m: nat, i: nat, s: string)
    requires StandsAt(u, i, Bulk(s)) && Spliced(t, u, m) && i <= m < i + |Bulk(s)| && |s| + 2 <= MAX64
    ensures var k, end := i + |Header('$', |s|)|, i + |Bulk(s)|;
            if k <= m < k + |s| then
              && (|t| < end ==> ParseBulk(t, i) == Torn)
              && (|t| >= end && !(t[end - 2] == '\r' && t[end - 1] == '\n') ==> ParseBulk(t, i) == Corrupt)
              && (ParseBulk(t, i).Record? ==>
                    |ParseBulk(t, i).argv| == 1 && Swallows(t[m..], ParseBulk(t, i).argv[0]))
            else
              && !ParseBulk(t, i).Record?
              && (FeedFollows(t, m) ==> ParseBulk(t, i) == Corrupt)
  {
    hide Header, Bulk, Digits, ParseNumber, StandsAt, Spliced;
    SplicedEnd(t, u, m);
    BulkParts(u, i, s);
    HeaderParts(u, i, '$', |s|);
    var k, end := i + |Header('$', |s|)|, i + |Bulk(s)|;
    if i < m {
      SplicedChar(t, u, m, i);
      if m < k {
        CutNumber(t, u, m, i, '$', |s|);
      } else {
        WholeNumber(t, u, m, i, '$', |s|);
        if m < k + |s| && end <= |t| {
          if t[end - 2] == '\r' && t[end - 1] == '\n' { FilledUp(t, m, k, |s|); }
        } else if k + |s| <= m && FeedFollows(t, m) {
          assert CrAt(t, m) > m;
        }
      }
    }
  }

  lemma WholeNumber(t: string, u: string, m: nat, i: nat, c: char, n: nat)
    requires StandsAt(u, i, Header(c, n)) && Spliced(t, u, m) && i + |Header(c, n)| <= m && n <= MAX64
    ensures ParseNumber(t, i + 1) == Num(n, i + |Header(c, n)|)
  {
    hide Header, Digits, Atoi, StandsAt, Spliced;
    HeaderParts(u, i, c, n);
    SplicedEnd(t, u, m);
    var e := i + 1 + |Digits(n)|;
    forall k | i < k < e + 2 ensures t[k] == u[k] {
      SplicedChar(t, u, m, k);
    }
    assert CrAt(t, i + 1) == e;
    SplicedSlice(t, u, m, i + 1, e);
    AtoiOfDigits(n);
  }

  // ------------------------------------------------------------------- a whole record

  /** How many bytes the bulk string in whose content the cut falls still needs, its line
      end included; None when the cut is in no content. */
  function Missing(args: seq<string>, c: nat): (r: Option<nat>)
    ensures r.Some? ==> r.value > 2
  {
    if args == [] then None
    else
      var b := |Bulk(args[0])|;
      if c >= b then Missing(args[1..], c - b)
      else if |Header('$', |args[0]|)| <= c < b - 2 then Some(b - c)
      else None
  }

  /** Everything before some argument is as it was written, and that argument swallowed
      the beginning of the text y, which was appended. */
  ghost predicate Damaged(argv: seq<string>, args: seq<string>, y: string) {
    |argv| == |args| && exists j :: 0 <= j < |args| && DamagedAt(argv, args, y, j)
  }

  ghost predicate DamagedAt(argv: seq<string>, args: seq<string>, y: string, j: nat) {
    j < |args| && j < |argv| && argv[..j] == args[..j] && Swallows(y, argv[j])
  }

  lemma {:induction false} ParsedExtends(t: string, i: nat, n: nat, acc: seq<string>)
    requires i <= |t|
    ensures var r := ParseBulks(t, i, n, acc); r.Record? ==> |r.argv| == |acc| + n && acc <= r.argv
    decreases n
  {
    hide ParseBulk;
    if n > 0 && ParseBulk(t, i).Record? {
      ParsedExtends(t, ParseBulk(t, i).used, n - 1, acc + ParseBulk(t, i).argv);
    }
  }

  /** How the cut bulk strings read: the part that is known for certain. */
  predicate ReadsAs(t: string, m: nat, missing: Option<nat>, r: Parsed)
    requires m <= |t|
  {
    match missing
    case None => FeedFollows(t, m) ==> r == Corrupt
    case Some(d) =>
      if |t| < m + d then r == Torn
      else d >= 2 && (!(t[m + d - 2] == '\r' && t[m + d - 1] == '\n') ==> r == Corrupt)
  }

  lemma {:induction false} CutBulks(t: string, u: string, m: nat, i: nat, args: seq<string>, acc: seq<string>)
    requires StandsAt(u, i, Bulks(args)) && Spliced(t, u, m) && i <= m < i + |Bulks(args)| && Recordable(args)
    ensures var r := ParseBulks(t, i, |args|, acc);
            && (r.Record? ==> Damaged(r.argv, acc + args, t[m..]))
            && ReadsAs(t, m, Missing(args, m - i), r)
    decreases |args|
  {
    hide Bulk, Header, StandsAt, ParseBulk, Spliced, FeedFollows;
    SplicedEnd(t, u, m);
    var s, rest := args[0], args[1..];
    StandsSplit(u, i, Bulk(s), Bulks(rest));
    if m < i + |Bulk(s)| {
      BulkParts(u, i, s);
      CutBulk(t, u, m, i, s);
      CutHere(t, m, i, args, acc);
    } else {
      BulkIsWhole(t, u, m, i, s);
      CutBulks(t, u, m, i + |Bulk(s)|, rest, acc + [s]);
      assert acc + [s] + rest == acc + args;
    }
  }

  /** The first bulk string was cut: what follows cannot undo the damage. */
  lemma CutHere(t: string, m: nat, i: nat, args: seq<string>, acc: seq<string>)
    requires i <= |t| && m <= |t| && args != []
    requires ParseBulk(t, i).Record? ==> |ParseBulk(t, i).argv| == 1 && Swallows(t[m..], ParseBulk(t, i).argv[0])
    ensures var r := ParseBulks(t, i, |args|, acc);
            && (r.Record? ==> Damaged(r.argv, acc + args, t[m..]))
            && (!ParseBulk(t, i).Record? ==> r == ParseBulk(t, i))
  {
    hide ParseBulk;
    var one := ParseBulk(t, i);
    if one.Record? {
      ParsedExtends(t, one.used, |args| - 1, acc + one.argv);
      var r := ParseBulks(t, one.used, |args| - 1, acc + one.argv);
      if r.Record? {
        assert r.argv[|acc|] == (acc + one.argv)[|acc|] == one.argv[0];
        assert r.argv[..|acc|] == (acc + one.argv)[..|acc|] == acc == (acc + args)[..|acc|];
        assert DamagedAt(r.argv, acc + args, t[m..], |acc|);
      }
    }
  }

  lemma BulkIsWhole(t: string, u: string, m: nat, i: nat, s: string)
    requires StandsAt(u, i, Bulk(s)) && Spliced(t, u, m) && i + |Bulk(s)| <= m && |s| + 2 <= MAX64
    ensures i + |Bulk(s)| <= |t| && ParseBulk(t, i) == Record([s], i + |Bulk(s)|)
  {
    hide Header, Bulk, Digits, ParseNumber, StandsAt, Spliced;
    SplicedEnd(t, u, m);
    BulkParts(u, i, s);
    HeaderParts(u, i, '$', |s|);
    WholeNumber(t, u, m, i, '$', |s|);
    var k := i + |Header('$', |s|)|;
    SplicedChar(t, u, m, i);
    SplicedSlice(t, u, m, k, k + |s|);
    SplicedChar(t, u, m, k + |s|);
    SplicedChar(t, u, m, k + |s| + 1);
  }

  /** The same for a record, of which c bytes were written. */
  function MissingIn(args: seq<string>, c: nat): Option<nat> {
    var h := |Header('*', |args|)|;
    if c < h then None else Missing(args, c - h)
  }

  lemma CutRecord(t: string, u: string, m: nat, i: nat, args: seq<string>)
    requires StandsAt(u, i, Array(args)) && Spliced(t, u, m) && i < m < i + |Array(args)| && Recordable(args)
    ensures var r := ParseRecord(t, i);
            && (r.Record? ==> Damaged(r.argv, args, t[m..]))
            && ReadsAs(t, m, MissingIn(args, m - i), r)
  {
    hide Header, StandsAt, ParseNumber, ParseBulks, Bulks, Missing, Damaged, Spliced, FeedFollows;
    SplicedEnd(t, u, m);
    var h := Header('*', |args|);
    StandsSplit(u, i, h, Bulks(args));
    HeaderParts(u, i, '*', |args|);
    SplicedChar(t, u, m, i);
    if m < i + |h| {
      CutNumber(t, u, m, i, '*', |args|);
    } else {
      WholeNumber(t, u, m, i, '*', |args|);
      CutBulks(t, u, m, i + |h|, args, []);
      assert [] + args == args;
    }
  }

  // ----------------------------------------------------------------------- the whole log

  /** A damaged record that still carries a stamp carries the number and DB of the cut
      one: the argument run over is one of the command's own. */
  lemma DamagedStamp(argv: seq<string>, last: Rec, y: string)
    requires Damaged(argv, Stamp(last), y) && Writable(last) && ParseStamped(argv).Unstamped?
    ensures var r := ParseStamped(argv).rec;
            && Stamp(r) == argv && r.num == last.num && r.db == last.db
            && exists j :: 0 <= j < |r.argv| && Swallows(y, r.argv[j])
  {
    hide Atoi, ParseUint, Digits, FormatInt, Recordable, Swallows;
    var args := Stamp(last);
    var j :| 0 <= j < |args| && DamagedAt(argv, args, y, j);
    StarSwallowed(y, argv[j]);
    StarIsNoNumber(argv[j]);
    NoStarInVerb(argv[j]);
    assert j > 2;
    assert argv[..j][0] == args[..j][0] && argv[..j][1] == args[..j][1] && argv[..j][2] == args[..j][2];
    AtoiOfFormat(last.db);
    UintOfDigits(last.num);
    assert argv == argv[..3] + argv[3..];
    assert argv[3..][j - 3] == argv[j];
  }

  lemma NoStarInVerb(s: string)
    requires '*' in s
    ensures s != VERB
  {
  }

  lemma {:induction false} CollectExtends(b: string, off: nat, acc: seq<Rec>)
    requires off <= |b|
    ensures CollectFrom(b, off, acc).Recs? ==> acc <= CollectFrom(b, off, acc).recs
    decreases |b| - off
  {
    hide ParseRecord, ParseStamped;
    if off < |b| && ParseRecord(b, off).Record? {
      var r := ParseRecord(b, off);
      if ParseStamped(r.argv).Unstamped? {
        CollectExtends(b, r.used, acc + [ParseStamped(r.argv).rec]);
      }
    }
  }

  /** The text of a log that was cut c bytes into `last` and then appended to. */
  function Continued(rs: seq<Rec>, last: Rec, c: nat, more: seq<Rec>): string
    requires c <= |Array(Stamp(last))|
  {
    LogBytes(rs) + (Array(Stamp(last))[..c] + LogBytes(more))
  }

  lemma LogBegins(rs: seq<Rec>)
    requires rs != []
    ensures LogBytes(rs) != [] && LogBytes(rs)[0] == '*' && FeedFollows(LogBytes(rs), 0)
  {
    hide LogBytes, Stamp, StandsAt, Header, Bulks, Digits;
    LogStarts(rs);
    var y, n := LogBytes(rs), |Stamp(rs[0])|;
    StandsHead(Header('*', n), Bulks(Stamp(rs[0])) + LogBytes(rs[1..]));
    HeaderParts(y, 0, '*', n);
    assert CrAt(y, 0) == 1 + |Digits(n)|;
  }

  lemma {:induction false} CrShifts(p: string, y: string, k: nat)
    requires k <= |y|
    ensures CrAt(p + y, |p| + k) == |p| + CrAt(y, k)
    decreases |y| - k
  {
    if k < |y| {
      assert (p + y)[|p| + k] == y[k];
      CrShifts(p, y, k + 1);
    }
  }

  lemma FeedShifts(p: string, y: string)
    requires FeedFollows(y, 0)
    ensures FeedFollows(p + y, |p|)
  {
    hide CrAt;
    CrShifts(p, y, 0);
    assert (p + y)[|p| + CrAt(y, 0) + 1] == y[CrAt(y, 0) + 1];
  }

  lemma SpliceOf(a: string, x: string, c: nat, y: string)
    requires c <= |x| && y != [] && y[0] == '*'
    ensures Spliced(a + (x[..c] + y), a + x, |a| + c)
    ensures a + (x[..c] + y) == (a + x[..c]) + y
  {
    var p := a + x[..c];
    assert a + (x[..c] + y) == p + y;
    assert (p + y)[..|p|] == p && (a + x)[..|p|] == p;
  }

  lemma ContinuedIsSpliced(rs: seq<Rec>, last: Rec, c: nat, more: seq<Rec>)
    requires c < |Array(Stamp(last))| && more != []
    ensures var a, x := LogBytes(rs), Array(Stamp(last));
            var t := Continued(rs, last, c, more);
            && Spliced(t, a + x, |a| + c) && FeedFollows(t, |a| + c)
            && StandsAt(t, 0, a) && StandsAt(a + x, |a|, x)
            && |t| == |a| + c + |LogBytes(more)| && t[|a| + c..] == LogBytes(more)
  {
    hide LogBytes, Array, Stamp, StandsAt, Spliced, FeedFollows;
    var a, x, y := LogBytes(rs), Array(Stamp(last)), LogBytes(more);
    LogBegins(more);
    SpliceOf(a, x, c, y);
    FeedShifts(a + x[..c], y);
    StandsHead(a, x[..c] + y);
    StandsTail(a, x);
  }

  lemma LogStarts(rs: seq<Rec>)
    requires rs != []
    ensures LogBytes(rs) == Header('*', |Stamp(rs[0])|) + (Bulks(Stamp(rs[0])) + LogBytes(rs[1..]))
  {
    hide Header, Bulks, Stamp;
  }

  /** The record has the number and DB of the torn one, and one of its arguments ends with
      the beginning of the text appended. */
  ghost predicate RunOver(r: Rec, last: Rec, y: string) {
    r.num == last.num && r.db == last.db && exists j :: 0 <= j < |r.argv| && Swallows(y, r.argv[j])
  }

  /** An argument of the record quotes the beginning of its own encoding, up to a line end. */
  ghost predicate QuotesOwnBytes(r: Rec) {
    exists j :: 0 <= j < |r.argv| && Swallows(Array(Stamp(r)), r.argv[j])
  }

  /** What is known about the reading of such a log, for every cut after the first byte. */
  lemma TornTailOutcome(rs: seq<Rec>, last: Rec, c: nat, more: seq<Rec>)
    requires AllWritable(rs) && Writable(last) && more != [] && 0 < c < |Array(Stamp(last))|
    ensures var r := CollectFrom(Continued(rs, last, c, more), 0, []);
            var y := LogBytes(more);
            && (r.Recs? ==>
                  r.recs == rs ||
                  (|r.recs| > |rs| && r.recs[..|rs|] == rs && RunOver(r.recs[|rs|], last, y)))
            && match MissingIn(Stamp(last), c)
               case None => r == Failed
               case Some(d) =>
                 if |y| < d then r == Recs(rs)
                 else d >= 2 && (!(y[d - 2] == '\r' && y[d - 1] == '\n') ==> r == Failed)
  {
    hide LogBytes, Array, AllWritable, Writable, ParseRecord, ParseStamped, Stamp, StandsAt, Spliced;
    hide FeedFollows, Damaged, MissingIn, CollectFrom, Swallows;
    var a, x, y := LogBytes(rs), Array(Stamp(last)), LogBytes(more);
    var t, m := Continued(rs, last, c, more), |LogBytes(rs)| + c;
    ContinuedIsSpliced(rs, last, c, more);
    SplicedEnd(t, a + x, m);
    CollectSkips(t, 0, rs, []);
    assert [] + rs == rs;
    assert Recordable(Stamp(last)) by { WritableIsRecordable(last); }
    CutRecord(t, a + x, m, |a|, Stamp(last));
    var p := ParseRecord(t, |a|);
    CollectStep(t, |a|, rs);
    assert forall k :: 0 <= k < |y| ==> t[m + k] == y[k] by { assert forall k :: 0 <= k < |y| ==> t[m..][k] == y[k]; }
    if p.Record? && ParseStamped(p.argv).Unstamped? {
      var rec := ParseStamped(p.argv).rec;
      DamagedStamp(p.argv, last, y);
      CollectExtends(t, p.used, rs + [rec]);
      var r := CollectFrom(t, p.used, rs + [rec]);
      if r.Recs? { PrefixKeeps(rs, rec, r.recs); }
    }
  }

  lemma PrefixKeeps(rs: seq<Rec>, rec: Rec, all: seq<Rec>)
    requires rs + [rec] <= all
    ensures |all| > |rs| && all[..|rs|] == rs && all[|rs|] == rec
  {
    assert all[..|rs|] == (rs + [rec])[..|rs|];
    assert all[|rs|] == (rs + [rec])[|rs|];
  }

  lemma WritableIsRecordable(r: Rec)
    requires Writable(r)
    ensures Recordable(Stamp(r))
  {
  }

  /** One record of the collecting loop. */
  lemma CollectStep(t: string, off: nat, acc: seq<Rec>)
    requires off < |t|
    ensures var p, r := ParseRecord(t, off), CollectFrom(t, off, acc);
            && (p == Torn ==> r == Recs(acc)) && (p == Corrupt ==> r == Failed) && (p == Crash ==> r == Panicked)
            && (p.Record? ==>
                  r == (match ParseStamped(p.argv)
                        case Unmarked => Failed
                        case Panic => Panicked
                        case Unstamped(rec) => CollectFrom(t, p.used, acc + [rec])))
  {
    hide ParseRecord, ParseStamped;
  }

  /** A torn tail spoils what is appended after it.  The log reads as the records before the
      cut and then the appended ones if nothing was left of the torn record; if something
      was, then only if the first appended record has the number of the torn one and quotes
      its own encoding. */
  lemma TornTailSpoilsAppends(rs: seq<Rec>, last: Rec, c: nat, more: seq<Rec>)
    requires AllWritable(rs) && AllWritable(more) && Writable(last)
    requires more != [] && c < |Array(Stamp(last))|
    ensures var same := CollectFrom(Continued(rs, last, c, more), 0, []) == Recs(rs + more);
            && (c == 0 ==> same)
            && (c > 0 && same ==> more[0].num == last.num && more[0].db == last.db && QuotesOwnBytes(more[0]))
  {
    hide LogBytes, Array, AllWritable, Writable, Stamp, CollectFrom, MissingIn, Continued, Swallows;
    if c == 0 {
      NothingTorn(rs, last, more);
    } else {
      TornTailOutcome(rs, last, c, more);
      assert (rs + more)[|rs|] == more[0];
      if RunOver(more[0], last, LogBytes(more)) { OwnBytes(more, last); }
    }
  }

  /** What was appended begins with the encoding of its first record, which is longer than
      any of its arguments. */
  lemma OwnBytes(more: seq<Rec>, last: Rec)
    requires more != [] && RunOver(more[0], last, LogBytes(more))
    ensures QuotesOwnBytes(more[0])
  {
    hide Array, Stamp;
    var r, x, y := more[0], Array(Stamp(more[0])), LogBytes(more);
    var j :| 0 <= j < |r.argv| && Swallows(y, r.argv[j]);
    var q: nat :| SwallowsAt(y, r.argv[j], q);
    ArgIsShort(r, j);
    assert y == x + LogBytes(more[1..]);
    assert x[..q] == y[..q] && x[q..q + 2] == y[q..q + 2] && x[0] == y[0];
    assert SwallowsAt(x, r.argv[j], q);
  }

  lemma ArgIsShort(r: Rec, j: nat)
    requires j < |r.argv|
    ensures |r.argv[j]| + 2 < |Array(Stamp(r))|
  {
    hide Header, FormatInt, Digits, Bulks;
    assert Stamp(r)[j + 3] == r.argv[j];
    BulkInBulks(Stamp(r), j + 3);
    assert Header('*', |Stamp(r)|) != [] by { HeaderNotEmpty(|Stamp(r)|); }
  }

  lemma HeaderNotEmpty(n: nat)
    ensures Header('*', n) != []
  {
    hide Digits;
  }

  lemma {:induction false} BulkInBulks(args: seq<string>, j: nat)
    requires j < |args|
    ensures |args[j]| + 2 <= |Bulks(args)|
    decreases |args|
  {
    hide Header;
    if j > 0 { BulkInBulks(args[1..], j - 1); }
  }

  lemma NothingTorn(rs: seq<Rec>, last: Rec, more: seq<Rec>)
    requires AllWritable(rs) && AllWritable(more)
    ensures CollectFrom(Continued(rs, last, 0, more), 0, []) == Recs(rs + more)
  {
    hide Array, Stamp, Writable, CollectFrom;
    assert Array(Stamp(last))[..0] + LogBytes(more) == LogBytes(more);
    LogsJoin(rs, more);
    WholeLog(rs + more);
  }

  lemma {:induction false} LogsJoin(a: seq<Rec>, b: seq<Rec>)
    ensures LogBytes(a + b) == LogBytes(a) + LogBytes(b)
    decreases |a|
  {
    hide Array, Stamp;
    if a == [] {
      assert a + b == b;
    } else {
      assert (a + b)[1..] == a[1..] + b;
      LogsJoin(a[1..], b);
    }
  }

  // ------------------------------------------------------------------------ silent loss

  lemma {:induction false} MissingLast(args: seq<string>)
    requires args != [] && args[|args| - 1] != []
    ensures var v := |args[|args| - 1]|;
            |Bulks(args)| > v + 2 && Missing(args, |Bulks(args)| - v - 2) == Some(v + 2)
    decreases |args|
  {
    hide Digits;
    if |args| == 1 {
      assert Bulks(args) == Bulk(args[0]) + [] by { assert args[1..] == []; }
    } else {
      MissingLast(args[1..]);
    }
  }

  /** Silent loss, for every log and all appended records: a command whose last argument
      is longer than the appended bytes, cut at the start of that argument, swallows them.
      The log loads without an error and every appended record is gone. */
  lemma SilentLoss(rs: seq<Rec>, last: Rec, more: seq<Rec>)
    requires AllWritable(rs) && Writable(last) && more != []
    requires var v := |last.argv[|last.argv| - 1]|; v > 0 && v + 2 > |LogBytes(more)|
    ensures var c := |Array(Stamp(last))| - |last.argv[|last.argv| - 1]| - 2;
            && 0 < c < |Array(Stamp(last))|
            && CollectFrom(Continued(rs, last, c, more), 0, []) == Recs(rs)
  {
    hide LogBytes, AllWritable, Header, Bulks, Missing, CollectFrom, Continued, Recordable, FormatInt, Digits;
    var args, v := Stamp(last), |last.argv[|last.argv| - 1]|;
    assert args[|args| - 1] == last.argv[|last.argv| - 1];
    MissingLast(args);
    var c := |Array(args)| - v - 2;
    assert |Array(args)| == |Header('*', |args|)| + |Bulks(args)|;
    assert MissingIn(args, c) == Some(v + 2);
    TornTailOutcome(rs, last, c, more);
  }

  // ------------------------------------------------- a record that repairs the torn one

  /** Bytes that read as the beginning of a record with one argument of n bytes. */
  function Fake(n: nat): string {
    Header('*', 1) + Header('$', n)
  }

  function Bait(n: nat): string {
    ['E'] + (CRLF + Fake(n))
  }

  /** The bytes of the record from its start into its fourth argument. */
  function Lead(num: nat, db: int, n: nat): string {
    Header('*', 5) + (Bulks([VERB, FormatInt(db), Digits(num)]) + (Header('$', |Bait(n)|) + ['E']))
  }

  /** A command whose last argument quotes the log record of the command itself. */
  function SelfQuoting(num: nat, db: int, n: nat): Rec {
    Rec(num, db, [Bait(n), Lead(num, db, n)])
  }

  lemma {:induction false} BulksJoin(a: seq<string>, b: seq<string>)
    ensures Bulks(a + b) == Bulks(a) + Bulks(b)
    decreases |a|
  {
    hide Bulk;
    if a == [] {
      assert a + b == b;
    } else {
      assert (a + b)[1..] == a[1..] + b;
      BulksJoin(a[1..], b);
    }
  }

  lemma TwoBulks(a: string, b: string)
    ensures Bulks([a, b]) == Bulk(a) + Bulk(b)
  {
    hide Bulk;
    assert [a, b][1..] == [b] && [b][1..] == [];
    assert Bulks([b]) == Bulk(b) + [];
  }

  /** The record ends with its quotation, and also begins with it and a line end. */
  lemma QuotesItself(num: nat, db: int, n: nat)
    ensures var x, lead := Array(Stamp(SelfQuoting(num, db, n))), Lead(num, db, n);
            && |x| > |lead| + 2 && x == x[..|x| - |lead| - 2] + (lead + CRLF)
            && x == (lead + CRLF) + (Fake(n) + (CRLF + Bulk(lead)))
  {
    hide Header, Bulks, FormatInt, Digits;
    var r, bait, lead := SelfQuoting(num, db, n), Bait(n), Lead(num, db, n);
    var first := [VERB, FormatInt(db), Digits(num)];
    assert Stamp(r) == first + [bait, lead];
    BulksJoin(first, [bait, lead]);
    TwoBulks(bait, lead);
    var h, b := Header('*', 5), Bulks(first);
    var x := Array(Stamp(r));
    assert |Stamp(r)| == 5;
    assert x == h + (b + (Bulk(bait) + Bulk(lead)));
    var g := h + (b + (Bulk(bait) + Header('$', |lead|)));
    assert x == g + (lead + CRLF);
    assert g == x[..|g|];
    assert Bulk(bait) == (Header('$', |bait|) + ['E']) + (CRLF + (Fake(n) + CRLF));
    var k := Header('$', |bait|) + ['E'];
    Regroup(h, b, k, CRLF, Fake(n), Bulk(lead));
  }

  lemma Regroup(h: string, b: string, k: string, e: string, f: string, z: string)
    ensures h + (b + ((k + (e + (f + e))) + z)) == ((h + (b + k)) + e) + (f + (e + z))
  {
  }

  /** The beginning of a record that asks for more bytes than there are. */
  lemma FakeIsTorn(t: string, i: nat, n: nat)
    requires StandsAt(t, i, Fake(n)) && n + 2 <= MAX64 && |t| < i + |Fake(n)| + n + 2
    ensures i < |t| && ParseRecord(t, i) == Torn
  {
    hide Header, StandsAt, ParseNumber;
    assert t[..|t|] == t;
    StandsSplit(t, i, Header('*', 1), Header('$', n));
    HeaderParts(t, i, '*', 1);
    NumberOnPrefix(t, |t|, i, '*', 1);
    var k := i + |Header('*', 1)|;
    HeaderParts(t, k, '$', n);
    NumberOnPrefix(t, |t|, k, '$', n);
  }

  lemma ShortNumber(n: nat)
    requires n < TWO64
    ensures |Digits(n)| <= 20
  {
    Pow19();
    assert Pow10(20) == 10 * Pow10(19);
    DigitsLength(n, 20);
  }

  lemma ShortHeader(c: char, n: nat)
    requires n < TWO64
    ensures |Header(c, n)| <= 23
  {
    hide Digits;
    ShortNumber(n);
  }

  lemma ShortBulk(s: string)
    requires |s| < 1000
    ensures |Bulk(s)| <= |s| + 25
  {
    hide Header;
    ShortHeader('$', |s|);
  }

  lemma ShortBulks(a: string, b: string, c: string)
    requires |a| <= 21 && |b| <= 21 && |c| <= 21
    ensures |Bulks([a, b, c])| <= 138
  {
    hide Bulk;
    assert [a, b, c] == [a] + [b, c];
    BulksJoin([a], [b, c]);
    TwoBulks(b, c);
    assert Bulks([a]) == Bulk(a) + [] by { assert [a][1..] == []; }
    ShortBulk(a);
    ShortBulk(b);
    ShortBulk(c);
  }

  /** More than such a record is long. */
  const ASKED := 1000

  lemma SelfQuotingFits(num: nat, db: int)
    requires num < TWO64 && IsInt64(db)
    ensures Writable(SelfQuoting(num, db, ASKED)) && |Array(Stamp(SelfQuoting(num, db, ASKED)))| <= ASKED
  {
    hide Digits, Header, Bulks, Bulk;
    var r, bait, lead := SelfQuoting(num, db, ASKED), Bait(ASKED), Lead(num, db, ASKED);
    ShortNumber(num);
    ShortNumber(if db < 0 then -db else db);
    ShortHeader('*', 1);
    ShortHeader('$', ASKED);
    ShortHeader('*', 5);
    assert |bait| <= 49;
    ShortHeader('$', |bait|);
    var first := [VERB, FormatInt(db), Digits(num)];
    ShortBulks(VERB, FormatInt(db), Digits(num));
    assert |lead| <= 185;
    ShortBulk(bait);
    ShortBulk(lead);
    assert Stamp(r) == first + [bait, lead];
    BulksJoin(first, [bait, lead]);
    TwoBulks(bait, lead);
  }

  /** Why a record that quotes itself is left out.  Such a record, cut
      at the start of its last argument and appended again under the number it had, reads
      back whole, for every number, DB and every log before it: its first copy is filled
      up by the second, and the rest of that one reads as torn. */
  lemma SelfQuotingRepairs(rs: seq<Rec>, num: nat, db: int)
    requires AllWritable(rs) && num < TWO64 && IsInt64(db)
    ensures var last := SelfQuoting(num, db, ASKED);
            var c := |Array(Stamp(last))| - |Lead(num, db, ASKED)| - 2;
            && Writable(last) && 0 < c < |Array(Stamp(last))|
            && CollectFrom(Continued(rs, last, c, [last]), 0, []) == Recs(rs + [last])
  {
    hide LogBytes, Array, AllWritable, Writable, Stamp, Fake, Lead, CollectFrom, Bulk, Continued;
    var last, lead := SelfQuoting(num, db, ASKED), Lead(num, db, ASKED);
    var x, tail := Array(Stamp(last)), CRLF + Bulk(lead);
    SelfQuotingFits(num, db);
    QuotesItself(num, db, ASKED);
    var c := |x| - |lead| - 2;
    assert |tail| <= |x|;
    AppendedAgain(rs, last, c, lead + CRLF, Fake(ASKED) + tail);
    OneMoreWritable(rs, last);
    TornRest(rs + [last], ASKED, tail);
  }

  lemma TornRest(all: seq<Rec>, n: nat, tail: string)
    requires AllWritable(all) && n + 2 <= MAX64 && |tail| < n + 2
    ensures CollectFrom(LogBytes(all) + (Fake(n) + tail), 0, []) == Recs(all)
  {
    hide LogBytes, AllWritable, StandsAt, Fake, CollectFrom, ParseRecord;
    var a, rest := LogBytes(all), Fake(n) + tail;
    var t := a + rest;
    StandsHead(a, rest);
    StandsTail(a, rest);
    StandsSplit(t, |a|, Fake(n), tail);
    CollectSkips(t, 0, all, []);
    assert [] + all == all;
    FakeIsTorn(t, |a|, n);
    CollectStep(t, |a|, all);
  }

  lemma OneMoreWritable(rs: seq<Rec>, last: Rec)
    requires AllWritable(rs) && Writable(last)
    ensures AllWritable(rs + [last])
  {
    hide Writable;
  }

  lemma AppendedAgain(rs: seq<Rec>, last: Rec, c: nat, q: string, rest: string)
    requires var x := Array(Stamp(last)); c <= |x| && x == x[..c] + q && x == q + rest
    ensures Continued(rs, last, c, [last]) == LogBytes(rs + [last]) + rest
  {
    hide Array, Stamp;
    var x := Array(Stamp(last));
    LogsJoin(rs, [last]);
    assert LogBytes([last]) == x by { assert [last][1..] == [] && x + [] == x; }
    assert x[..c] + x == (x[..c] + q) + rest;
    hide LogBytes;
    assert LogBytes(rs) + (x + rest) == (LogBytes(rs) + x) + rest;
  }
}
