/**
 The append-only file on disk (lib/persist/aof.go, lib/persist/replay.go): one stream of
 stamped records per shard, written in any order across shards, and merged by sequence
 number at replay.
 */
module AofLog {
  import opened Basics
  import opened Decimal
  import opened Resp

  // ------------------------------------------------------------- one record, parsed

  /** `Torn` is a clean truncation, tolerated at the end of a log; `Corrupt` is any other
      error; `Crash` is a run-time panic of the source (a negative array length, or a bulk
      length whose end wraps around). */
  datatype Parsed = Torn | Corrupt | Crash | Record(argv: seq<string>, used: nat)

  datatype Number = NumTorn | NumBad | Num(n: int, next: nat)

  /** The next carriage return at or after i, or the length. */
  function CrAt(b: string, i: nat): (r: nat)
    requires i <= |b|
    ensures i <= r <= |b|
    ensures r < |b| ==> b[r] == '\r'
    ensures forall k :: i <= k < r ==> b[k] != '\r'
    decreases |b| - i
  {
    if i == |b| || b[i] == '\r' then i else CrAt(b, i + 1)
  }

  /** `parseAOFInt` at offset i. */
  function ParseNumber(b: string, i: nat): (r: Number)
    requires i <= |b|
    ensures r.Num? ==> i < r.next <= |b|
  {
    var j := CrAt(b, i);
    if j + 1 >= |b| then NumTorn
    else if b[j + 1] != '\n' then NumBad
    else
      var n := Atoi(b[i..j]);
      if n.None? then NumBad else Num(n.value, j + 2)
  }

  /** One bulk string at offset i, as a record of one argument. */
  function ParseBulk(b: string, i: nat): (r: Parsed)
    requires i <= |b|
    ensures r.Record? ==> i < r.used <= |b| && |r.argv| == 1
  {
    if i >= |b| || b[i] != '$' then Corrupt
    else
      match ParseNumber(b, i + 1)
      case NumTorn => Torn
      case NumBad => Corrupt
      case Num(ln, k) =>
        if ln < 0 then Torn
        else if ln + 2 > MAX64 then Crash
        else if |b| - k < ln + 2 then Torn
        else if b[k + ln] != '\r' || b[k + ln + 1] != '\n' then Corrupt
        else Record([b[k..k + ln]], k + ln + 2)
  }

  /** The remaining n bulk strings of a record, from offset i on. */
  function ParseBulks(b: string, i: nat, n: nat, argv: seq<string>): (r: Parsed)
    requires i <= |b|
    ensures r.Record? ==> i <= r.used <= |b|
    decreases n
  {
    if n == 0 then Record(argv, i)
    else
      var next := ParseBulk(b, i);
      if !next.Record? then next else ParseBulks(b, next.used, n - 1, argv + next.argv)
  }

  /** `parseAOFCommand` at offset `off`. */
  function ParseRecord(b: string, off: nat): (r: Parsed)
    requires off <= |b|
    ensures r.Record? ==> off < r.used <= |b|
  {
    if off == |b| || b[off] != '*' then Corrupt
    else
      match ParseNumber(b, off + 1)
      case NumTorn => Torn
      case NumBad => Corrupt
      case Num(n, k) => if n < 0 then Crash else ParseBulks(b, k, n, [])
  }

  /** The loop of the source. */
  method ParseRecordLoop(b: string, off: nat) returns (r: Parsed)
    requires off <= |b|
    ensures r == ParseRecord(b, off)
  {
    hide ParseNumber;
    if off == |b| || b[off] != '*' { return Corrupt; }
    var head := ParseNumber(b, off + 1);
    if head.NumTorn? { return Torn; }
    if head.NumBad? { return Corrupt; }
    if head.n < 0 { return Crash; }
    var n: nat, i: nat, argv := head.n, head.next, [];
    while n > 0
      invariant i <= |b| && ParseBulks(b, i, n, argv) == ParseRecord(b, off)
    {
      var next := ParseBulk(b, i);
      if !next.Record? { return next; }
      argv, i, n := argv + next.argv, next.used, n - 1;
    }
    return Record(argv, i);
  }

  // -------------------------------------------------------- what the parser accepts

  /** At i stand the type byte, a text up to a carriage return that reads as n, and a line
      end. */
  ghost predicate NumberLine(b: string, i: nat, c: char, x: string, n: int) {
    StandsAt(b, i, [c] + x + CRLF) && '\r' !in x && Atoi(x) == Some(n)
  }

  lemma {:induction false} CrFirst(b: string, i: nat, e: nat)
    requires i <= e < |b| && b[e] == '\r' && forall k :: i <= k < e ==> b[k] != '\r'
    ensures CrAt(b, i) == e
    decreases e - i
  {
    if i < e { CrFirst(b, i + 1, e); }
  }

  lemma NumberFound(b: string, i: nat, c: char, x: string, n: int)
    requires NumberLine(b, i, c, x, n)
    ensures i < |b| && b[i] == c && ParseNumber(b, i + 1) == Num(n, i + |x| + 3)
  {
    hide Atoi, StandsAt, CrAt;
    var y := [c] + x + CRLF;
    StandsSlice(b, i, y);
    forall k | 0 <= k < |y| ensures y[k] == b[i + k] { StandsChar(b, i, y, k); }
    var e := i + |x| + 1;
    assert y[|x| + 1] == b[i + (|x| + 1)] && y[|x| + 2] == b[i + (|x| + 2)];
    assert b[i + 1..e] == y[1..|x| + 1] == x;
    forall k | i + 1 <= k < e ensures b[k] != '\r' {
      assert y[k - i] == b[i + (k - i)] && y[k - i] == x[k - i - 1] && x[k - i - 1] in x;
    }
    CrFirst(b, i + 1, e);
  }

  lemma NumberStands(b: string, i: nat, c: char)
    requires i < |b| && b[i] == c && ParseNumber(b, i + 1).Num?
    ensures var r, e := ParseNumber(b, i + 1), CrAt(b, i + 1);
            e + 2 == r.next && NumberLine(b, i, c, b[i + 1..e], r.n)
  {
    hide Atoi, CrAt;
    var e := CrAt(b, i + 1);
    LineMade(b, i, c, e);
    var x := b[i + 1..e];
    assert forall k :: 0 <= k < |x| ==> x[k] == b[i + 1 + k];
  }

  lemma LineMade(b: string, i: nat, c: char, e: nat)
    requires i < e && e + 1 < |b| && b[i] == c && b[e] == '\r' && b[e + 1] == '\n'
    ensures StandsAt(b, i, [c] + b[i + 1..e] + CRLF)
  {
    assert b[i..e + 2] == [c] + b[i + 1..e] + CRLF;
  }

  /** A bulk string of the wire form, its length spelled in any way that reads as it. */
  ghost predicate IsBulk(b: string, i: nat, arg: string, next: nat) {
    exists x :: IsBulkWith(b, i, x, arg, next)
  }

  ghost predicate IsBulkWith(b: string, i: nat, x: string, arg: string, next: nat) {
    && NumberLine(b, i, '$', x, |arg|)
    && StandsAt(b, i + |x| + 3, arg + CRLF) && next == i + |x| + 3 + |arg| + 2
  }

  /** The parser accepts a bulk string if and only if one stands there, of a length that the
      machine can hold together with its line end. */
  lemma BulkIff(b: string, i: nat, arg: string, next: nat)
    requires i <= |b|
    ensures ParseBulk(b, i) == Record([arg], next) <==> IsBulk(b, i, arg, next) && |arg| + 2 <= MAX64
  {
    hide Atoi, StandsAt, ParseNumber, NumberLine;
    if IsBulk(b, i, arg, next) {
      var x :| IsBulkWith(b, i, x, arg, next);
      NumberFound(b, i, '$', x, |arg|);
      var k := i + |x| + 3;
      StandsSlice(b, k, arg + CRLF);
      StandsSplit(b, k, arg, CRLF);
      StandsSlice(b, k, arg);
      StandsChar(b, k + |arg|, CRLF, 0);
      StandsChar(b, k + |arg|, CRLF, 1);
    }
    if ParseBulk(b, i) == Record([arg], next) {
      NumberStands(b, i, '$');
      var k := ParseNumber(b, i + 1).next;
      WholeBody(b, k, arg);
      assert IsBulkWith(b, i, b[i + 1..CrAt(b, i + 1)], arg, next);
    }
  }

  lemma WholeBody(b: string, k: nat, arg: string)
    requires k + |arg| + 2 <= |b| && b[k..k + |arg|] == arg && b[k + |arg|] == '\r' && b[k + |arg| + 1] == '\n'
    ensures StandsAt(b, k, arg + CRLF)
  {
    assert b[k..k + |arg| + 2] == arg + CRLF;
  }

  /** Bulk strings one behind the other. */
  ghost predicate AreBulks(b: string, i: nat, args: seq<string>, next: nat)
    decreases |args|
  {
    if args == [] then next == i
    else
      exists k: nat ::
        k <= |b| && IsBulk(b, i, args[0], k) && |args[0]| + 2 <= MAX64 && AreBulks(b, k, args[1..], next)
  }

  lemma {:induction false} BulksExtend(b: string, i: nat, n: nat, argv: seq<string>)
    requires i <= |b|
    ensures var r := ParseBulks(b, i, n, argv); r.Record? ==> argv <= r.argv && |r.argv| == |argv| + n
    decreases n
  {
    hide ParseBulk;
    if n > 0 && ParseBulk(b, i).Record? {
      BulksExtend(b, ParseBulk(b, i).used, n - 1, argv + ParseBulk(b, i).argv);
    }
  }

  lemma {:induction false} BulksIff(b: string, i: nat, args: seq<string>, acc: seq<string>, next: nat)
    requires i <= |b|
    ensures ParseBulks(b, i, |args|, acc) == Record(acc + args, next) <==> AreBulks(b, i, args, next)
    decreases |args|
  {
    hide ParseBulk, IsBulk;
    if args == [] {
      assert acc + args == acc;
    } else {
      var r := ParseBulk(b, i);
      assert acc + [args[0]] + args[1..] == acc + args;
      if r.Record? {
        var arg := r.argv[0];
        assert r.argv == [arg];
        BulkIff(b, i, arg, r.used);
        BulksIff(b, r.used, args[1..], acc + [arg], next);
        if ParseBulks(b, i, |args|, acc) == Record(acc + args, next) {
          BulksExtend(b, r.used, |args| - 1, acc + [arg]);
          assert (acc + args)[|acc|] == arg;
        }
      }
      if k: nat :| k <= |b| && IsBulk(b, i, args[0], k) && |args[0]| + 2 <= MAX64 && AreBulks(b, k, args[1..], next) {
        BulkIff(b, i, args[0], k);
      }
    }
  }

  /** A record of the wire form. */
  ghost predicate IsRecord(b: string, off: nat, argv: seq<string>, used: nat) {
    exists x :: NumberLine(b, off, '*', x, |argv|) && AreBulks(b, off + |x| + 3, argv, used)
  }

  /** The parser returns a record if and only if one stands there: no other bytes are ever
      taken for a record. */
  lemma RecordIff(b: string, off: nat, argv: seq<string>, used: nat)
    requires off <= |b|
    ensures ParseRecord(b, off) == Record(argv, used) <==> IsRecord(b, off, argv, used)
  {
    hide Atoi, StandsAt, ParseNumber, ParseBulks, AreBulks, NumberLine;
    if IsRecord(b, off, argv, used) {
      var x :| NumberLine(b, off, '*', x, |argv|) && AreBulks(b, off + |x| + 3, argv, used);
      NumberFound(b, off, '*', x, |argv|);
      BulksIff(b, off + |x| + 3, argv, [], used);
      assert [] + argv == argv;
    }
    if ParseRecord(b, off) == Record(argv, used) {
      NumberStands(b, off, '*');
      var n := ParseNumber(b, off + 1);
      BulksExtend(b, n.next, n.n, []);
      BulksIff(b, n.next, argv, [], used);
      assert [] + argv == argv;
    }
  }

  // -------------------------------------------- prefixes of well-formed records

  /** Lengths that a machine integer can hold together with a line end. */
  predicate Recordable(args: seq<string>) {
    |args| <= MAX64 && forall k :: 0 <= k < |args| ==> |args[k]| + 2 <= MAX64
  }

  lemma NumberOnPrefix(t: string, m: nat, i: nat, c: char, n: nat)
    requires StandsAt(t, i, Header(c, n)) && i < m <= |t| && n <= MAX64
    ensures ParseNumber(t[..m], i + 1) ==
            if i + |Header(c, n)| <= m then Num(n, i + |Header(c, n)|) else NumTorn
  {
    hide Header, Digits, Atoi, StandsAt;
    HeaderParts(t, i, c, n);
    var b, e := t[..m], i + 1 + |Digits(n)|;
    assert forall k :: 0 <= k < m ==> b[k] == t[k];
    assert CrAt(b, i + 1) == if e < m then e else m;
    if e + 1 < m {
      SliceOfPrefix(t, m, i + 1, e);
      AtoiOfDigits(n);
    }
  }

  lemma BulkOnPrefix(t: string, m: nat, i: nat, s: string)
    requires StandsAt(t, i, Bulk(s)) && i <= m <= |t| && |s| + 2 <= MAX64
    ensures ParseBulk(t[..m], i) ==
            if i == m then Corrupt else if i + |Bulk(s)| <= m then Record([s], i + |Bulk(s)|) else Torn
    ensures |Bulk(s)| > 0
  {
    hide Bulk, Header, StandsAt, ParseNumber;
    BulkParts(t, i, s);
    if i < m {
      var b := t[..m];
      HeaderParts(t, i, '$', |s|);
      NumberOnPrefix(t, m, i, '$', |s|);
      var k := i + |Header('$', |s|)|;
      assert b[i] == t[i] == '$';
      if k + |s| + 2 <= m {
        SliceOfPrefix(t, m, k, k + |s|);
        assert b[k + |s|] == t[k + |s|] && b[k + |s| + 1] == t[k + |s| + 1];
      }
    }
  }

  /** A cut of c bytes into the bulk strings falls exactly in front of one of them. */
  predicate CutAtBulk(args: seq<string>, c: nat) {
    args != [] && (c == 0 || (|Bulk(args[0])| <= c && CutAtBulk(args[1..], c - |Bulk(args[0])|)))
  }

  /** What the parser makes of bulk strings of which only the first c bytes are there. */
  lemma {:induction false} BulksOnPrefix(t: string, m: nat, i: nat, args: seq<string>, acc: seq<string>)
    requires StandsAt(t, i, Bulks(args)) && i <= m <= |t| && Recordable(args)
    ensures ParseBulks(t[..m], i, |args|, acc) ==
            if i + |Bulks(args)| <= m then Record(acc + args, i + |Bulks(args)|)
            else if CutAtBulk(args, m - i) then Corrupt else Torn
    decreases |args|
  {
    hide Bulk, StandsAt, ParseBulk;
    if args != [] {
      var s := args[0];
      assert Bulks(args) == Bulk(s) + Bulks(args[1..]);
      StandsSplit(t, i, Bulk(s), Bulks(args[1..]));
      BulkOnPrefix(t, m, i, s);
      if i + |Bulk(s)| <= m && i < m {
        BulksOnPrefix(t, m, i + |Bulk(s)|, args[1..], acc + [s]);
        assert acc + [s] + args[1..] == acc + args;
      }
    }
  }

  /** A cut after c bytes of a record falls exactly in front of one of its bulk strings. */
  predicate CutBeforeBulk(args: seq<string>, c: nat) {
    c >= |Header('*', |args|)| && CutAtBulk(args, c - |Header('*', |args|)|)
  }

  lemma NoCutAtStart(args: seq<string>)
    ensures !CutBeforeBulk(args, 0) && Array(args) != []
  {
    assert Header('*', |args|)[0] == '*';
  }

  /** A record of which the log holds the first c bytes. */
  lemma RecordOnPrefix(t: string, m: nat, i: nat, args: seq<string>)
    requires StandsAt(t, i, Array(args)) && i < m <= |t| && Recordable(args)
    ensures ParseRecord(t[..m], i) ==
            if i + |Array(args)| <= m then Record(args, i + |Array(args)|)
            else if CutBeforeBulk(args, m - i) then Corrupt else Torn
  {
    hide StandsAt, Header, ParseNumber, ParseBulks, Bulks, CutAtBulk;
    var h := Header('*', |args|);
    StandsSplit(t, i, h, Bulks(args));
    HeaderParts(t, i, '*', |args|);
    NumberOnPrefix(t, m, i, '*', |args|);
    assert t[..m][i] == t[i];
    if i + |h| <= m { BulksOnPrefix(t, m, i + |h|, args, []); }
    assert [] + args == args;
  }

  // ---------------------------------------------------------------- stamped records

  const VERB: string := "ULTIMAREC"

  datatype Rec = Rec(num: nat, db: int, argv: seq<string>)

  /** `stampRecord`. */
  function Stamp(r: Rec): seq<string> {
    [VERB, FormatInt(r.db), Digits(r.num)] + r.argv
  }

  datatype Unstamped = Unmarked | Panic | Unstamped(rec: Rec)

  /** `parseStamped`; the error message of an empty record reads its first argument. */
  function ParseStamped(argv: seq<string>): Unstamped {
    if argv == [] then Panic
    else if |argv| < 4 || argv[0] != VERB then Unmarked
    else
      var db, n := Atoi(argv[1]), ParseUint(argv[2]);
      if db.None? || n.None? then Unmarked else Unstamped.Unstamped(Rec(n.value, db.value, argv[3..]))
  }

  /** A captured command with a sequence number of 64 bits. */
  predicate Writable(r: Rec) {
    r.argv != [] && IsInt64(r.db) && r.num < TWO64 && Recordable(Stamp(r))
  }

  /** What is taken for a stamp: the marker, a DB number, a sequence number, and at least one
      argument more, which begins the command. */
  lemma StampedIff(argv: seq<string>, rec: Rec)
    ensures ParseStamped(argv) == Unstamped.Unstamped(rec) <==>
            && |argv| >= 4 && argv[0] == "ULTIMAREC"
            && Atoi(argv[1]) == Some(rec.db) && ParseUint(argv[2]) == Some(rec.num) && argv[3..] == rec.argv
    ensures ParseStamped(argv) == Panic <==> argv == []
  {
    hide Atoi, ParseUint;
  }

  lemma StampRoundTrip(r: Rec)
    requires Writable(r)
    ensures ParseStamped(Stamp(r)) == Unstamped.Unstamped(r)
  {
    hide Atoi, ParseUint, Digits, FormatInt;
    AtoiOfFormat(r.db);
    UintOfDigits(r.num);
    assert Stamp(r)[3..] == r.argv;
  }

  // -------------------------------------------------------------- one log, collected

  datatype Collected = Failed | Panicked | Recs(recs: seq<Rec>)

  /** The records of one log from offset `off` on, after those in acc. */
  function CollectFrom(b: string, off: nat, acc: seq<Rec>): Collected
    requires off <= |b|
    decreases |b| - off
  {
    if off == |b| then Recs(acc)
    else
      match ParseRecord(b, off)
      case Torn => Recs(acc)
      case Corrupt => Failed
      case Crash => Panicked
      case Record(argv, used) =>
        match ParseStamped(argv)
        case Unmarked => Failed
        case Panic => Panicked
        case Unstamped(rec) => CollectFrom(b, used, acc + [rec])
  }

  method CollectLog(b: string) returns (r: Collected)
    ensures r == CollectFrom(b, 0, [])
  {
    hide ParseRecord, ParseStamped;
    var off: nat, recs := 0, [];
    while off < |b|
      invariant off <= |b| && CollectFrom(b, off, recs) == CollectFrom(b, 0, [])
    {
      var p := ParseRecordLoop(b, off);
      match p {
        case Torn => break;
        case Corrupt => return Failed;
        case Crash => return Panicked;
        case Record(argv, used) =>
          match ParseStamped(argv) {
            case Unmarked => return Failed;
            case Panic => return Panicked;
            case Unstamped(rec) => off, recs := used, recs + [rec];
          }
      }
    }
    return Recs(recs);
  }

  /** The bytes of a log: its records in the order they were appended. */
  function LogBytes(rs: seq<Rec>): string {
    if rs == [] then [] else Array(Stamp(rs[0])) + LogBytes(rs[1..])
  }

  predicate AllWritable(rs: seq<Rec>) {
    forall k :: 0 <= k < |rs| ==> Writable(rs[k])
  }

  /** Whole records are collected one by one, whatever follows them. */
  lemma {:induction false} CollectSkips(t: string, i: nat, rs: seq<Rec>, acc: seq<Rec>)
    requires StandsAt(t, i, LogBytes(rs)) && AllWritable(rs)
    ensures CollectFrom(t, i, acc) == CollectFrom(t, i + |LogBytes(rs)|, acc + rs)
    decreases |rs|
  {
    hide StandsAt, Array, ParseRecord, ParseStamped, Stamp, Writable;
    if rs == [] {
      assert acc + rs == acc;
    } else {
      var r := rs[0];
      StandsSplit(t, i, Array(Stamp(r)), LogBytes(rs[1..]));
      WholeRecord(t, i, r);
      CollectSkips(t, i + |Array(Stamp(r))|, rs[1..], acc + [r]);
      assert acc + [r] + rs[1..] == acc + rs;
    }
  }

  lemma WholeRecord(t: string, i: nat, r: Rec)
    requires StandsAt(t, i, Array(Stamp(r))) && Writable(r)
    ensures i + |Array(Stamp(r))| <= |t|
    ensures ParseRecord(t, i) == Record(Stamp(r), i + |Array(Stamp(r))|)
    ensures ParseStamped(Stamp(r)) == Unstamped.Unstamped(r)
  {
    hide Array, ParseRecord, ParseStamped, Stamp;
    assert t[..|t|] == t;
    NoCutAtStart(Stamp(r));
    RecordOnPrefix(t, |t|, i, Stamp(r));
    StampRoundTrip(r);
  }

  /** A log of whole records gives exactly its records. */
  lemma WholeLog(rs: seq<Rec>)
    requires AllWritable(rs)
    ensures CollectFrom(LogBytes(rs), 0, []) == Recs(rs)
  {
    hide LogBytes, AllWritable;
    var t := LogBytes(rs);
    assert t[0..|t|] == t;
    CollectSkips(t, 0, rs, []);
    assert [] + rs == rs;
  }

  /** A log cut c bytes into its last record gives all earlier records, unless the cut
      falls exactly in front of a bulk string: that is reported as corruption. */
  lemma CutLog(rs: seq<Rec>, last: Rec, c: nat)
    requires AllWritable(rs) && Writable(last) && c < |Array(Stamp(last))|
    ensures CollectFrom(LogBytes(rs) + Array(Stamp(last))[..c], 0, []) ==
            if CutBeforeBulk(Stamp(last), c) then Failed else Recs(rs)
  {
    hide LogBytes, Array, AllWritable, CutBeforeBulk, ParseRecord, ParseStamped, Stamp, StandsAt;
    var a, x := LogBytes(rs), Array(Stamp(last));
    var b, t := a + x[..c], a + x;
    StandsHead(a, x[..c]);
    CollectSkips(b, 0, rs, []);
    assert [] + rs == rs;
    if c > 0 {
      assert t[..|a| + c] == b;
      StandsTail(a, x);
      RecordOnPrefix(t, |a| + c, |a|, Stamp(last));
    } else {
      NoCutAtStart(Stamp(last));
    }
  }
}
