/**
 The pipelined command reader (lib/resp/redcon.go `Reader.readCommands`, the branch for
 RESP commands): a growing buffer, parsed from the front after every read, however the
 stream was cut into reads.
 */
module RespReader {
  import opened Basics
  import opened Decimal
  import opened Resp

  datatype Scan = NotReady | Bad | Got(args: seq<string>, used: nat)

  /** The next line feed at or after i, or the length when there is none. */
  function LineEnd(b: string, i: nat): (r: nat)
    requires i <= |b|
    ensures i <= r <= |b|
    ensures r < |b| ==> b[r] == '\n'
    ensures forall k :: i <= k < r ==> b[k] != '\n'
    decreases |b| - i
  {
    if i == |b| || b[i] == '\n' then i else LineEnd(b, i + 1)
  }

  /** One bulk string whose `$` is expected at i: the argument and the index after it. */
  datatype BulkScan = BulkNotReady | BulkBad | BulkGot(arg: string, next: nat)

  function ScanBulk(b: string, i: nat): (r: BulkScan)
    ensures r.BulkGot? ==> i < r.next <= |b|
  {
    if i >= |b| then BulkNotReady
    else if b[i] != '$' then BulkBad
    else
      var e := LineEnd(b, i);
      if e == |b| then BulkNotReady
      else if b[e - 1] != '\r' then BulkBad
      else
        var size := Atoi(b[i + 1..e - 1]);
        if size.None? || size.value < 0 then BulkBad
        else if e + size.value + 2 >= |b| then BulkNotReady
        else if b[e + size.value + 2] != '\n' || b[e + size.value + 1] != '\r' then BulkBad
        else BulkGot(b[e + 1..e + 1 + size.value], e + size.value + 3)
  }

  /** The remaining `count` arguments, from i on. */
  function ScanArgs(b: string, i: nat, count: nat, args: seq<string>): Scan
    decreases count
  {
    if count == 0 then Got(args, i)
    else
      match ScanBulk(b, i)
      case BulkNotReady => NotReady
      case BulkBad => Bad
      case BulkGot(arg, next) => ScanArgs(b, next, count - 1, args + [arg])
  }

  /** One command at the front of b. */
  function ScanCommand(b: string): Scan
    requires b != [] && b[0] == '*'
  {
    var e := LineEnd(b, 1);
    if e == |b| then NotReady
    else if b[e - 1] != '\r' then Bad
    else
      var count := Atoi(b[1..e - 1]);
      if count.None? || count.value <= 0 then Bad
      else ScanArgs(b, e + 1, count.value, [])
  }

  /** The nested scanning loops of the source.  Arguments are copied out here; the source
      slices its buffer. */
  method ScanCommandLoop(b: string) returns (r: Scan)
    requires b != [] && b[0] == '*'
    ensures r == ScanCommand(b)
  {
    hide Atoi, ScanBulk;
    var i := 1;
    while i < |b| && b[i] != '\n'
      invariant 1 <= i <= |b| && LineEnd(b, i) == LineEnd(b, 1)
    {
      i := i + 1;
    }
    if i == |b| { return NotReady; }
    if b[i - 1] != '\r' { return Bad; }
    var count := Atoi(b[1..i - 1]);
    if count.None? || count.value <= 0 { return Bad; }
    var args: seq<string> := [];
    i := i + 1;
    var j := 0;
    while j < count.value
      invariant 0 <= j <= count.value
      invariant ScanArgs(b, i, count.value - j, args) == ScanCommand(b)
    {
      match ScanBulk(b, i)
      case BulkNotReady => return NotReady;
      case BulkBad => return Bad;
      case BulkGot(arg, next) => args, i := args + [arg], next;
      j := j + 1;
    }
    return Got(args, i);
  }

  // ------------------------------------------- prefixes of well-formed input

  /** The line end of a header, in a prefix of length m of the text. */
  lemma HeaderLine(t: string, m: nat, i: nat, c: char, n: nat)
    requires StandsAt(t, i, Header(c, n)) && i < m <= |t| && c != '\n'
    ensures var e := i + |Digits(n)| + 2;
            LineEnd(t[..m], i) == LineEnd(t[..m], i + 1) == if e < m then e else m
  {
    HeaderParts(t, i, c, n);
    var b := t[..m];
    assert forall k :: 0 <= k < m ==> b[k] == t[k];
  }

  lemma BulkOnPrefix(t: string, m: nat, i: nat, s: string)
    requires StandsAt(t, i, Bulk(s)) && m <= |t| && |s| <= MAX64
    ensures ScanBulk(t[..m], i) ==
            if i + |Bulk(s)| <= m then BulkGot(s, i + |Bulk(s)|) else BulkNotReady
  {
    hide Bulk, Header, Digits, Atoi, LineEnd, StandsAt;
    BulkParts(t, i, s);
    HeaderParts(t, i, '$', |s|);
    if i < m {
      var b, e := t[..m], i + |Digits(|s|)| + 2;
      HeaderLine(t, m, i, '$', |s|);
      assert b[i] == t[i];
      if e < m {
        assert b[e - 1] == t[e - 1];
        assert b[i + 1..e - 1] == t[i + 1..e - 1] == Digits(|s|);
        AtoiOfDigits(|s|);
        if e + |s| + 2 < m {
          SliceOfPrefix(t, m, e + 1, e + 1 + |s|);
          assert b[e + |s| + 2] == t[e + |s| + 2] && b[e + |s| + 1] == t[e + |s| + 1];
        }
      }
    }
  }

  predicate Sized(args: seq<string>) {
    |args| <= MAX64 && forall k :: 0 <= k < |args| ==> |args[k]| <= MAX64
  }

  lemma {:induction false} ArgsOnPrefix(t: string, m: nat, i: nat, args: seq<string>, acc: seq<string>)
    requires StandsAt(t, i, Bulks(args)) && m <= |t| && i <= m
    requires forall k :: 0 <= k < |args| ==> |args[k]| <= MAX64
    ensures ScanArgs(t[..m], i, |args|, acc) ==
            if i + |Bulks(args)| <= m then Got(acc + args, i + |Bulks(args)|) else NotReady
    decreases |args|
  {
    hide Bulk, ScanBulk, StandsAt;
    if args == [] {
      assert acc + args == acc;
    } else {
      assert Bulks(args) == Bulk(args[0]) + Bulks(args[1..]);
      StandsSplit(t, i, Bulk(args[0]), Bulks(args[1..]));
      BulkOnPrefix(t, m, i, args[0]);
      if i + |Bulk(args[0])| <= m {
        ArgsOnPrefix(t, m, i + |Bulk(args[0])|, args[1..], acc + [args[0]]);
        assert acc + [args[0]] + args[1..] == acc + args;
      }
    }
  }

  /** A command whose encoding stands at the front of t, seen through any nonempty prefix
      of t: it is returned exactly when the prefix holds all of it, and never rejected. */
  lemma CommandOnPrefix(t: string, m: nat, args: seq<string>)
    requires StandsAt(t, 0, Array(args)) && 0 < m <= |t| && args != [] && Sized(args)
    ensures t[..m][0] == '*'
    ensures ScanCommand(t[..m]) == if |Array(args)| <= m then Got(args, |Array(args)|) else NotReady
  {
    hide Header, Digits, Atoi, LineEnd, StandsAt, Bulks, ScanArgs;
    var h := Header('*', |args|);
    StandsSplit(t, 0, h, Bulks(args));
    HeaderParts(t, 0, '*', |args|);
    HeaderLine(t, m, 0, '*', |args|);
    var b, e := t[..m], |Digits(|args|)| + 2;
    assert b[0] == t[0];
    if e < m {
      SliceOfPrefix(t, m, 1, e - 1);
      AtoiOfDigits(|args|);
      ArgsOnPrefix(t, m, e + 1, args, []);
      assert [] + args == args;
      assert b[e - 1] == t[e - 1];
    }
  }

  // ----------------------------------------------------------- what the scan accepts

  /** At i stand the type byte, a text in one line that reads as n, and a line end. */
  ghost predicate NumberLine(b: string, i: nat, c: char, x: string, n: int) {
    StandsAt(b, i, [c] + x + CRLF) && '\n' !in x && Atoi(x) == Some(n)
  }

  lemma {:induction false} LineEndAt(b: string, i: nat, e: nat)
    requires i <= e < |b| && b[e] == '\n' && forall k :: i <= k < e ==> b[k] != '\n'
    ensures LineEnd(b, i) == e
    decreases e - i
  {
    if i < e { LineEndAt(b, i + 1, e); }
  }

  /** The line that the scan finds is the one that stands there. */
  lemma LineFound(b: string, i: nat, from: nat, c: char, x: string)
    requires StandsAt(b, i, [c] + x + CRLF) && '\n' !in x && c != '\n' && i <= from <= i + 1
    ensures var e := i + |x| + 2;
            e < |b| && LineEnd(b, from) == e && b[e - 1] == '\r' && b[i] == c && b[i + 1..e - 1] == x
  {
    var y := [c] + x + CRLF;
    var e := i + |x| + 2;
    forall k | 0 <= k < |y| ensures y[k] == b[i + k] { StandsChar(b, i, y, k); }
    assert b[i] == y[0] && b[e - 1] == y[|x| + 1] && b[e] == y[|x| + 2];
    assert b[i + 1..e - 1] == y[1..|x| + 1] == x;
    forall k | from <= k < e ensures b[k] != '\n' {
      assert b[k] == y[k - i];
      if 0 < k - i <= |x| { assert y[k - i] == x[k - i - 1] && x[k - i - 1] in x; }
    }
    LineEndAt(b, from, e);
  }

  /** And a line that the scan finds stands there. */
  lemma LineStands(b: string, i: nat, from: nat, c: char)
    requires i < |b| && b[i] == c && c != '\n' && c != '\r' && i <= from <= i + 1
    requires var e := LineEnd(b, from); e < |b| && e > 0 && b[e - 1] == '\r'
    ensures var e := LineEnd(b, from);
            i < e - 1 && StandsAt(b, i, [c] + b[i + 1..e - 1] + CRLF) && '\n' !in b[i + 1..e - 1]
  {
    var e := LineEnd(b, from);
    assert e > i;
    var x := b[i + 1..e - 1];
    assert b[i..e + 1] == [c] + x + CRLF;
    assert forall k :: 0 <= k < |x| ==> x[k] == b[i + 1 + k];
  }

  /** A bulk string of the wire form, its length spelled in any way that reads as it. */
  ghost predicate IsBulk(b: string, i: nat, arg: string, next: nat) {
    exists x :: IsBulkWith(b, i, x, arg, next)
  }

  ghost predicate IsBulkWith(b: string, i: nat, x: string, arg: string, next: nat) {
    && NumberLine(b, i, '$', x, |arg|)
    && StandsAt(b, i + |x| + 3, arg + CRLF) && next == i + |x| + 3 + |arg| + 2
  }

  /** The scan accepts a bulk string if and only if one stands there. */
  lemma BulkIff(b: string, i: nat, arg: string, next: nat)
    ensures ScanBulk(b, i) == BulkGot(arg, next) <==> IsBulk(b, i, arg, next)
  {
    hide Atoi, LineEnd, StandsAt;
    if IsBulk(b, i, arg, next) {
      var x :| IsBulkWith(b, i, x, arg, next);
      LineFound(b, i, i, '$', x);
      BodyStands(b, i + |x| + 3, arg);
    }
    if ScanBulk(b, i) == BulkGot(arg, next) {
      LineStands(b, i, i, '$');
      var e := LineEnd(b, i);
      StandsBody(b, e + 1, arg);
      assert IsBulkWith(b, i, b[i + 1..e - 1], arg, next);
    }
  }

  lemma BodyStands(b: string, k: nat, arg: string)
    requires StandsAt(b, k, arg + CRLF)
    ensures k + |arg| + 2 <= |b| && b[k..k + |arg|] == arg && b[k + |arg|] == '\r' && b[k + |arg| + 1] == '\n'
  {
    StandsSplit(b, k, arg, CRLF);
    StandsChar(b, k + |arg|, CRLF, 0);
    StandsChar(b, k + |arg|, CRLF, 1);
  }

  lemma StandsBody(b: string, k: nat, arg: string)
    requires k + |arg| + 2 <= |b| && b[k..k + |arg|] == arg && b[k + |arg|] == '\r' && b[k + |arg| + 1] == '\n'
    ensures StandsAt(b, k, arg + CRLF)
  {
    assert b[k..k + |arg| + 2] == arg + CRLF;
  }

  /** Bulk strings one behind the other. */
  ghost predicate AreBulks(b: string, i: nat, args: seq<string>, next: nat)
    decreases |args|
  {
    if args == [] then next == i
    else exists k :: IsBulk(b, i, args[0], k) && AreBulks(b, k, args[1..], next)
  }

  lemma {:induction false} ArgsIff(b: string, i: nat, args: seq<string>, acc: seq<string>, next: nat)
    ensures ScanArgs(b, i, |args|, acc) == Got(acc + args, next) <==> AreBulks(b, i, args, next)
    decreases |args|
  {
    hide ScanBulk, IsBulk;
    if args == [] {
      assert acc + args == acc;
    } else {
      var r := ScanBulk(b, i);
      assert acc + [args[0]] + args[1..] == acc + args;
      if r.BulkGot? {
        BulkIff(b, i, r.arg, r.next);
        ArgsIff(b, r.next, args[1..], acc + [r.arg], next);
        if ScanArgs(b, i, |args|, acc) == Got(acc + args, next) {
          ArgsExtend(b, r.next, |args| - 1, acc + [r.arg]);
          assert (acc + args)[|acc|] == r.arg;
        }
      }
      if k :| IsBulk(b, i, args[0], k) && AreBulks(b, k, args[1..], next) {
        BulkIff(b, i, args[0], k);
      }
    }
  }

  lemma {:induction false} ArgsExtend(b: string, i: nat, count: nat, args: seq<string>)
    ensures var r := ScanArgs(b, i, count, args); r.Got? ==> args <= r.args && |r.args| == |args| + count
    decreases count
  {
    hide ScanBulk;
    if count > 0 && ScanBulk(b, i).BulkGot? {
      ArgsExtend(b, ScanBulk(b, i).next, count - 1, args + [ScanBulk(b, i).arg]);
    }
  }

  /** A command of the wire form: its count in any spelling, and that many bulk strings. */
  ghost predicate IsCommand(b: string, args: seq<string>, used: nat) {
    args != [] && exists x :: NumberLine(b, 0, '*', x, |args|) && AreBulks(b, |x| + 3, args, used)
  }

  /** The scan returns a command if and only if one stands at the front of the buffer: no
      other bytes are ever taken for a command. */
  lemma CommandIff(b: string, args: seq<string>, used: nat)
    requires b != [] && b[0] == '*'
    ensures ScanCommand(b) == Got(args, used) <==> IsCommand(b, args, used)
  {
    hide Atoi, LineEnd, StandsAt, ScanArgs, AreBulks;
    if IsCommand(b, args, used) {
      var x :| NumberLine(b, 0, '*', x, |args|) && AreBulks(b, |x| + 3, args, used);
      LineFound(b, 0, 1, '*', x);
      ArgsIff(b, |x| + 3, args, [], used);
      assert [] + args == args;
    }
    if ScanCommand(b) == Got(args, used) {
      var e := LineEnd(b, 1);
      LineStands(b, 0, 1, '*');
      var x := b[0 + 1..e - 1];
      ArgsExtend(b, e + 1, Atoi(x).value, []);
      ArgsIff(b, e + 1, args, [], used);
      assert [] + args == args;
    }
  }

  /** A rejection is final: whatever bytes follow, the buffer is rejected again. */
  lemma RejectionIsFinal(b: string, more: string)
    requires b != [] && b[0] == '*' && ScanCommand(b) == Bad
    ensures ScanCommand(b + more) == Bad
  {
    hide Atoi, ScanArgs;
    var e, t := LineEnd(b, 1), b + more;
    assert forall k :: 0 <= k < |b| ==> t[k] == b[k];
    LineEndAt(t, 1, e);
    if b[e - 1] == '\r' {
      assert t[1..e - 1] == b[1..e - 1];
      var count := Atoi(b[1..e - 1]);
      if count.Some? && count.value > 0 { ArgsStayBad(b, more, e + 1, count.value, []); }
    }
  }

  lemma {:induction false} ArgsStayBad(b: string, more: string, i: nat, count: nat, args: seq<string>)
    requires ScanArgs(b, i, count, args) == Bad
    ensures ScanArgs(b + more, i, count, args) == Bad
    decreases count
  {
    hide ScanBulk;
    BulkStays(b, more, i);
    var r := ScanBulk(b, i);
    if r.BulkGot? { ArgsStayBad(b, more, r.next, count - 1, args + [r.arg]); }
  }

  lemma BulkStays(b: string, more: string, i: nat)
    ensures ScanBulk(b, i) != BulkNotReady ==> ScanBulk(b + more, i) == ScanBulk(b, i)
  {
    hide Atoi;
    var t := b + more;
    if i < |b| {
      assert forall k :: 0 <= k < |b| ==> t[k] == b[k];
      var e := LineEnd(b, i);
      if e < |b| {
        LineEndAt(t, i, e);
        if b[i] == '$' && b[e - 1] == '\r' {
          assert t[i + 1..e - 1] == b[i + 1..e - 1];
          var size := Atoi(b[i + 1..e - 1]);
          if size.Some? && size.value >= 0 && e + size.value + 2 < |b| {
            assert t[e + 1..e + 1 + size.value] == b[e + 1..e + 1 + size.value];
          }
        }
      }
    }
  }

  // --------------------------------------------------------------- whole buffers

  datatype Batch = Protocol | Commands(cmds: seq<seq<string>>, used: nat)

  /** The `next:` loop: every complete command at the front of the buffer.  A protocol
      error discards the commands parsed before it. */
  function Drain(b: string): (r: Batch)
    ensures r.Commands? ==> r.used <= |b|
    decreases |b|
  {
    if b == [] then Commands([], 0)
    else if b[0] != '*' then Protocol
    else
      match ScanCommand(b)
      case NotReady => Commands([], 0)
      case Bad => Protocol
      case Got(args, used) =>
        if used == 0 || used > |b| then Protocol
        else
          match Drain(b[used..])
          case Protocol => Protocol
          case Commands(cmds, n) => Commands([args] + cmds, used + n)
  }

  /** Commands of the wire form, one behind the other, at the front of b. */
  ghost predicate AreCommands(b: string, cmds: seq<seq<string>>, used: nat)
    decreases |cmds|
  {
    if cmds == [] then used == 0
    else exists n: nat :: IsFirst(b, cmds[0], n) && n <= used && AreCommands(b[n..], cmds[1..], used - n)
  }

  ghost predicate IsFirst(b: string, args: seq<string>, n: nat) {
    0 < n <= |b| && b[0] == '*' && IsCommand(b, args, n)
  }

  /** Whatever the buffer holds, what is drained from it is commands that stand there, one
      behind the other from its front. */
  lemma {:induction false} DrainedStandThere(b: string)
    ensures Drain(b).Commands? ==> AreCommands(b, Drain(b).cmds, Drain(b).used)
    decreases |b|
  {
    hide ScanCommand, IsCommand;
    if b != [] && b[0] == '*' && ScanCommand(b).Got? {
      var r := ScanCommand(b);
      if 0 < r.used <= |b| && Drain(b[r.used..]).Commands? {
        DrainedStandThere(b[r.used..]);
        CommandIff(b, r.args, r.used);
        var d := Drain(b);
        assert d.cmds[1..] == Drain(b[r.used..]).cmds;
        assert IsFirst(b, d.cmds[0], r.used);
      }
    }
  }

  predicate AllSized(cmds: seq<seq<string>>) {
    forall k :: 0 <= k < |cmds| ==> cmds[k] != [] && Sized(cmds[k])
  }

  /** The number of whole commands in the first m bytes of the stream. */
  function Whole(cmds: seq<seq<string>>, m: nat): (n: nat)
    ensures n <= |cmds|
  {
    if cmds == [] || |Array(cmds[0])| > m then 0 else 1 + Whole(cmds[1..], m - |Array(cmds[0])|)
  }

  lemma {:induction false} StreamSplit(cmds: seq<seq<string>>, n: nat)
    requires n <= |cmds|
    ensures Stream(cmds) == Stream(cmds[..n]) + Stream(cmds[n..])
    decreases n
  {
    hide Array;
    if n == 0 {
      assert cmds[..0] == [] && cmds[0..] == cmds;
    } else {
      var rest := cmds[1..];
      StreamSplit(rest, n - 1);
      assert cmds[..n][1..] == rest[..n - 1] && cmds[n..] == rest[n - 1..];
    }
  }

  lemma DrainOne(b: string, args: seq<string>, used: nat, cmds: seq<seq<string>>, n: nat)
    requires 0 < used <= |b| && b[0] == '*' && ScanCommand(b) == Got(args, used)
    requires Drain(b[used..]) == Commands(cmds, n)
    ensures Drain(b) == Commands([args] + cmds, used + n)
  {
    hide ScanCommand;
  }

  lemma StreamCons(args: seq<string>, cmds: seq<seq<string>>)
    ensures Stream([args] + cmds) == Array(args) + Stream(cmds)
  {
    hide Array;
    assert ([args] + cmds)[1..] == cmds;
  }

  lemma DropPrefix(a: string, rest: string, m: nat)
    requires |a| <= m <= |a + rest|
    ensures (a + rest)[..m][|a|..] == rest[..m - |a|]
  {
  }

  /** One command at the front, and what is known about the rest. */
  lemma DrainMore(args: seq<string>, tail: string, m: nat, cmds: seq<seq<string>>, n: nat)
    requires args != [] && Sized(args) && |Array(args)| <= m <= |Array(args) + tail|
    requires Drain(tail[..m - |Array(args)|]) == Commands(cmds, n)
    ensures Drain((Array(args) + tail)[..m]) == Commands([args] + cmds, |Array(args)| + n)
  {
    hide Array, ScanCommand, Sized, StandsAt, Drain;
    var a := Array(args);
    ArrayNotEmpty(args);
    StandsHead(a, tail);
    CommandOnPrefix(a + tail, m, args);
    DropPrefix(a, tail, m);
    DrainOne((a + tail)[..m], args, |a|, cmds, n);
  }

  lemma DrainNone(args: seq<string>, tail: string, m: nat)
    requires args != [] && Sized(args) && m < |Array(args)|
    ensures Drain((Array(args) + tail)[..m]) == Commands([], 0)
  {
    hide Array, ScanCommand, Sized, StandsAt;
    if m > 0 {
      StandsHead(Array(args), tail);
      CommandOnPrefix(Array(args) + tail, m, args);
    }
  }

  lemma {:induction false} DrainPrefix(cmds: seq<seq<string>>, m: nat)
    requires AllSized(cmds) && m <= |Stream(cmds)|
    ensures var n := Whole(cmds, m);
            Drain(Stream(cmds)[..m]) == Commands(cmds[..n], |Stream(cmds[..n])|) && |Stream(cmds[..n])| <= m
    decreases |cmds|
  {
    hide Array, Sized, Drain;
    if cmds == [] {
      DrainEmpty();
    } else if |Array(cmds[0])| <= m {
      var a, rest := Array(cmds[0]), cmds[1..];
      assert AllSized(rest) by { assert forall k :: 0 <= k < |rest| ==> rest[k] == cmds[k + 1]; }
      DrainPrefix(rest, m - |a|);
      var n := Whole(rest, m - |a|);
      DrainMore(cmds[0], Stream(rest), m, rest[..n], |Stream(rest[..n])|);
      assert cmds[..n + 1] == [cmds[0]] + rest[..n];
      StreamCons(cmds[0], rest[..n]);
    } else {
      DrainNone(cmds[0], Stream(cmds[1..]), m);
    }
  }

  lemma DrainEmpty()
    ensures Drain([]) == Commands([], 0)
  {
  }

  /** Draining any prefix of a command stream returns its whole commands, in order, and
      leaves the bytes of the rest; there is never a protocol error. */
  lemma DrainOnPrefix(cmds: seq<seq<string>>, m: nat)
    requires AllSized(cmds) && m <= |Stream(cmds)|
    ensures var n := Whole(cmds, m);
            && Drain(Stream(cmds)[..m]) == Commands(cmds[..n], |Stream(cmds[..n])|)
            && |Stream(cmds[..n])| <= m
            && Stream(cmds)[|Stream(cmds[..n])|..] == Stream(cmds[n..])
  {
    hide Drain, Stream, AllSized, Whole;
    DrainPrefix(cmds, m);
    StreamSplit(cmds, Whole(cmds, m));
  }

  lemma ArrayNotEmpty(args: seq<string>)
    ensures |Array(args)| > 0
  {
  }

  lemma {:induction false} WholeStream(cmds: seq<seq<string>>)
    ensures Whole(cmds, |Stream(cmds)|) == |cmds|
    decreases |cmds|
  {
    hide Array;
    if cmds != [] { WholeStream(cmds[1..]); }
  }

  lemma MoveOver(b: string, start: nat, end: nat, input: string, pos: nat, n: nat)
    requires start <= end && end + n <= |b| && pos + n <= |input| && b[end..end + n] == input[pos..pos + n]
    ensures b[start..end + n] + input[pos + n..] == b[start..end] + input[pos..]
  {
    assert b[start..end + n] == b[start..end] + b[end..end + n];
    assert input[pos..] == input[pos..pos + n] + input[pos + n..];
  }

  // ------------------------------------------------------------------- the reader

  const BASE: nat := 4096

  datatype Outcome = Eof | Broken | Batched(cmds: seq<seq<string>>)

  /** The reader and the connection behind it: `input` is everything the peer will send
      and `pos` how much of it has been read. */
  class Reader {
    var buf: array<char>
    var start: nat
    var end: nat
    const input: string
    var pos: nat

    ghost predicate Valid()
      reads this, buf
    {
      start <= end <= buf.Length && 0 < buf.Length && pos <= |input|
    }

    /** The bytes not yet handed out as commands. */
    ghost function Pending(): string
      reads this, buf
      requires Valid()
    {
      buf[start..end] + input[pos..]
    }

    constructor (input: string)
      ensures Valid() && fresh(buf) && Pending() == input && pos == 0 && this.input == input
    {
      this.input := input;
      buf := new char[BASE];
      start, end, pos := 0, 0, 0;
    }

    /** Make room behind `end`: rewind an empty buffer, double a full one. */
    method Room()
      requires Valid()
      modifies this`buf, this`start, this`end
      ensures Valid() && end < buf.Length && Pending() == old(Pending())
      ensures buf == old(buf) || fresh(buf)
    {
      if end == buf.Length {
        if start == end {
          start, end := 0, 0;
        } else {
          var bigger := new char[2 * buf.Length];
          forall i | 0 <= i < buf.Length { bigger[i] := buf[i]; }
          assert bigger[start..end] == buf[start..end];
          buf := bigger;
        }
      }
    }

    /** n bytes of the connection, copied behind the unread ones. */
    method Copy(n: nat)
      requires Valid() && end + n <= buf.Length && pos + n <= |input|
      modifies buf
      ensures buf[start..end] == old(buf[start..end]) && buf[end..end + n] == input[pos..pos + n]
    {
      var i := 0;
      while i < n
        invariant 0 <= i <= n
        invariant buf[start..end] == old(buf[start..end]) && buf[end..end + i] == input[pos..pos + i]
      {
        buf[end + i] := input[pos + i];
        assert buf[end..end + i + 1] == buf[end..end + i] + [buf[end + i]];
        assert input[pos..pos + i + 1] == input[pos..pos + i] + [input[pos + i]];
        i := i + 1;
      }
    }

    /** One read from the connection, of whatever size the network gives: at least one
        byte, at most what fits and what is left. */
    method Fill(cut: nat)
      requires Valid() && end < buf.Length && pos < |input|
      modifies this`end, this`pos, buf
      ensures Valid() && Pending() == old(Pending()) && pos > old(pos)
    {
      var n := if cut == 0 then 1 else cut;
      if n > buf.Length - end { n := buf.Length - end; }
      if n > |input| - pos { n := |input| - pos; }
      Copy(n);
      MoveOver(buf[..], start, end, input, pos, n);
      end, pos := end + n, pos + n;
    }

    /** An empty, grown buffer shrinks back. */
    method Shrink()
      requires Valid()
      modifies this`buf, this`start, this`end
      ensures Valid() && Pending() == old(Pending()) && (buf == old(buf) || fresh(buf))
    {
      if start == end && buf.Length > BASE {
        buf := new char[BASE];
        start, end := 0, 0;
      }
    }

    /** The parsing half of readCommands: drain the buffer, keep the leftover. */
    method ParseBuffered() returns (ok: bool, got: seq<seq<string>>)
      requires Valid()
      modifies this`start
      ensures Valid() && old(start) <= start
      ensures var d := Drain(old(buf[start..end]));
              && ok == d.Commands?
              && (ok ==> got == d.cmds && start == old(start) + d.used)
              && (!ok ==> got == [] && start == old(start))
    {
      hide Drain;
      var b := buf[start..end];
      if |b| == 0 {
        DrainEmpty();
        assert b == [];
        return true, [];
      }
      match Drain(b)
      case Protocol => return false, [];
      case Commands(cs, used) =>
        start := start + used;
        return true, cs;
    }

    /** readCommands, with its tail recursion as a loop, on any input: what it hands out
        stands at the front of the unread bytes, the rest stays unread, and it reports a
        protocol error only for bytes that are rejected whatever follows. */
    method ReadCommands(cut: nat -> nat) returns (r: Outcome)
      requires Valid()
      modifies this, buf
      ensures Valid() && (buf == old(buf) || fresh(buf))
      ensures r.Batched? ==> r.cmds != [] && HandedOut(old(Pending()), r.cmds, Pending())
      ensures !r.Batched? ==> Pending() == old(Pending())
      ensures r.Broken? ==> BrokenIn(Pending())
      ensures r.Eof? ==> pos == |input| && Drain(Pending()) == Commands([], 0)
    {
      hide Drain;
      ghost var p := Pending();
      while true
        invariant Valid() && Pending() == p && (buf == old(buf) || fresh(buf))
        decreases |input| - pos
      {
        Shrink();
        var b := buf[start..end];
        assert p[..|b|] == b;
        var ok, got := ParseBuffered();
        if !ok {
          assert BrokenAt(p, |b|);
          return Broken;
        }
        assert Pending() == p[Drain(b).used..] by { assert buf[start..end] == b[Drain(b).used..]; }
        if |got| > 0 {
          assert HandedOutBy(p, |b|, got, Drain(b).used, Pending());
          return Batched(got);
        }
        NothingDrained(b);
        assert p[0..] == p;
        if pos == |input| {
          assert b == p;
          return Eof;
        }
        Room();
        Fill(cut(pos));
      }
    }
  }

  /** A prefix of the bytes is drained of these commands, and the bytes behind them are left. */
  ghost predicate HandedOut(p: string, cmds: seq<seq<string>>, left: string) {
    exists m: nat, used: nat :: HandedOutBy(p, m, cmds, used, left)
  }

  ghost predicate HandedOutBy(p: string, m: nat, cmds: seq<seq<string>>, used: nat, left: string) {
    m <= |p| && used <= m && Drain(p[..m]) == Commands(cmds, used) && left == p[used..]
  }

  ghost predicate BrokenIn(p: string) {
    exists m: nat :: BrokenAt(p, m)
  }

  ghost predicate BrokenAt(p: string, m: nat) {
    m <= |p| && Drain(p[..m]).Protocol?
  }

  lemma NothingDrained(b: string)
    ensures Drain(b).Commands? && Drain(b).cmds == [] ==> Drain(b) == Commands([], 0)
  {
    hide ScanCommand;
  }

  /** On a stream of well-formed commands there is no protocol error, the commands handed out
      are the next ones, and it ends only when there are none left. */
  lemma OnStream(cmds: seq<seq<string>>, r: Outcome, left: string)
    requires AllSized(cmds)
    ensures !BrokenIn(Stream(cmds))
    ensures Drain(Stream(cmds)) == Commands([], 0) ==> cmds == []
    ensures r.Batched? && HandedOut(Stream(cmds), r.cmds, left) ==> r.cmds <= cmds && left == Stream(cmds[|r.cmds|..])
  {
    hide Drain, Stream, AllSized, Whole;
    var p := Stream(cmds);
    forall m: nat | m <= |p| ensures !BrokenAt(p, m) { DrainOnPrefix(cmds, m); }
    DrainOnPrefix(cmds, |p|);
    assert p[..|p|] == p;
    WholeStream(cmds);
    if r.Batched? && HandedOut(p, r.cmds, left) {
      var m: nat, used: nat :| HandedOutBy(p, m, r.cmds, used, left);
      DrainOnPrefix(cmds, m);
    }
  }

  /** The whole conversation: every command sent is received, once and in order, for
      every way the stream is cut into reads. */
  method ReadAll(cmds: seq<seq<string>>, cut: nat -> nat) returns (got: seq<seq<string>>)
    requires AllSized(cmds)
    ensures got == cmds
  {
    hide Stream, AllSized, Drain, BrokenIn, HandedOut;
    var rd := new Reader(Stream(cmds));
    got := [];
    var more := true;
    while more
      invariant rd.Valid() && fresh(rd) && fresh(rd.buf)
      invariant got <= cmds && rd.Pending() == Stream(cmds[|got|..])
      invariant !more ==> got == cmds
      decreases more, |cmds| - |got|
    {
      SizedTail(cmds, |got|);
      ghost var rest := cmds[|got|..];
      var r := rd.ReadCommands(cut);
      OnStream(rest, r, rd.Pending());
      if r.Batched? {
        assert rest[|r.cmds|..] == cmds[|got| + |r.cmds|..];
        got := got + r.cmds;
      } else {
        more := false;
      }
    }
  }

  lemma SizedTail(cmds: seq<seq<string>>, n: nat)
    requires AllSized(cmds) && n <= |cmds|
    ensures AllSized(cmds[n..])
  {
  }
}
