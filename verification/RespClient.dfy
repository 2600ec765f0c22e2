/**
 The reply parser of the Go client (clients/go/ultima/resp.go `readValue`, `readElems`,
 `readLine`), and its agreement with the server's printer in both protocols.
 */
module RespClient {
  import opened Basics
  import opened Decimal
  import opened RespValue
  import R = Resp

  /** `Panic` is a run-time panic: an allocation with a negative size. */
  datatype Outcome<+T> = Got(v: T, next: nat) | EndOfInput | BadFrame | Panic

  // ------------------------------------------------------------------------- lines

  /** The offset after the next line feed, or None at the end of the input. */
  function PastLineFeed(t: string, i: nat): (r: Option<nat>)
    requires i <= |t|
    ensures r.Some? ==> i < r.value <= |t|
    decreases |t| - i
  {
    if i == |t| then None else if t[i] == '\n' then Some(i + 1) else PastLineFeed(t, i + 1)
  }

  /** `strings.TrimRight(s, "\r\n")`. */
  function Trim(s: string): string {
    if s != [] && Ends(s[|s| - 1]) then Trim(s[..|s| - 1]) else s
  }

  function ReadLine(t: string, i: nat): (r: Outcome<string>)
    requires i <= |t|
    ensures r.Got? ==> i < r.next <= |t|
  {
    var e := PastLineFeed(t, i);
    if e.None? then EndOfInput else Got(Trim(t[i..e.value]), e.value)
  }

  // ------------------------------------------------------------------------ values

  /** `io.ReadFull` of n bytes and a line end, which is not looked at. */
  function ReadBytes(t: string, i: nat, n: nat): (r: Outcome<string>)
    requires i <= |t|
    ensures r.Got? ==> i < r.next <= |t| && |r.v| == n
  {
    if n + 2 > MAX64 then Panic
    else if i + n + 2 > |t| then EndOfInput
    else Got(t[i..i + n], i + n + 2)
  }

  /** A reply whose line has been read and that has no elements. */
  function Scalar<F>(fl: Floats<F>, t: string, c: char, arg: string, i: nat): (r: Outcome<Value<F>>)
    requires i <= |t|
    ensures r.Got? ==> i <= r.next <= |t|
  {
    match c
    case '+' => Got(Simple(arg), i)
    case '-' => Got(Error(arg), i)
    case ':' => var n := Atoi(arg); if n.None? then BadFrame else Got(Int(n.value), i)
    case '$' =>
      var n := Atoi(arg);
      if n.None? then BadFrame
      else if n.value < 0 then Got(Null, i)
      else
        var b := ReadBytes(t, i, n.value);
        (match b
         case Got(s, k) => Got(Blob(s), k)
         case EndOfInput => EndOfInput
         case BadFrame => BadFrame
         case Panic => Panic)
    case '_' => Got(Null, i)
    case '#' => if arg == "t" then Got(Bool(true), i) else if arg == "f" then Got(Bool(false), i) else BadFrame
    case ',' => var f := fl.parse(arg); if f.None? then BadFrame else Got(Double(f.value), i)
    case '(' => Got(BigNumber(arg), i)
    case '=' =>
      var n := Atoi(arg);
      if n.None? || n.value < 4 then BadFrame
      else
        var b := ReadBytes(t, i, n.value);
        (match b
         case Got(s, k) => Got(Verbatim(s[..3], s[4..]), k)
         case EndOfInput => EndOfInput
         case BadFrame => BadFrame
         case Panic => Panic)
    case _ => BadFrame
  }

  predicate Aggregate(c: char) {
    c == '*' || c == '%' || c == '~' || c == '>'
  }

  /** How many elements an aggregate line announces: None when it is not a number; a
      negative count stands for a null array or a panic. */
  function Count(c: char, arg: string): Option<int> {
    var n := Atoi(arg);
    if n.None? then None else Some(if c == '%' then Wrap(2 * n.value) else n.value)
  }

  function Wrapped<F>(c: char, vs: seq<Value<F>>): Value<F> {
    if c == '*' then Array(vs) else if c == '%' then Map(vs) else if c == '~' then Set(vs) else Push(vs)
  }

  function ReadValue<F>(fl: Floats<F>, t: string, i: nat): (r: Outcome<Value<F>>)
    requires i <= |t|
    ensures r.Got? ==> i < r.next <= |t|
    decreases |t| - i, 0
  {
    match ReadLine(t, i)
    case EndOfInput => EndOfInput
    case BadFrame => BadFrame
    case Panic => Panic
    case Got(line, k) =>
      if line == [] then BadFrame
      else if !Aggregate(line[0]) then Scalar(fl, t, line[0], line[1..], k)
      else
        var n := Count(line[0], line[1..]);
        if n.None? then BadFrame
        else if n.value < 0 then (if line[0] == '*' then Got(Null, k) else Panic)
        else
          match ReadElems(fl, t, k, n.value)
          case Got(vs, next) => Got(Wrapped(line[0], vs), next)
          case EndOfInput => EndOfInput
          case BadFrame => BadFrame
          case Panic => Panic
  }

  /** The first n values from offset i on. */
  function ReadElems<F>(fl: Floats<F>, t: string, i: nat, n: nat): (r: Outcome<seq<Value<F>>>)
    requires i <= |t|
    ensures r.Got? ==> i <= r.next <= |t| && |r.v| == n
    decreases |t| - i, n
  {
    if n == 0 then Got([], i)
    else
      match ReadElems(fl, t, i, n - 1)
      case EndOfInput => EndOfInput
      case BadFrame => BadFrame
      case Panic => Panic
      case Got(vs, k) =>
        match ReadValue(fl, t, k)
        case EndOfInput => EndOfInput
        case BadFrame => BadFrame
        case Panic => Panic
        case Got(v, next) => Got(vs + [v], next)
  }

  // --------------------------------------------------------- lines the server printed

  lemma {:induction false} PastLineFeedAt(t: string, i: nat, e: nat)
    requires i <= e < |t| && t[e] == '\n' && forall k :: i <= k < e ==> t[k] != '\n'
    ensures PastLineFeed(t, i) == Some(e + 1)
    decreases e - i
  {
    if i < e { PastLineFeedAt(t, i + 1, e); }
  }

  lemma TrimLine(x: string)
    requires x != [] && OneLine(x)
    ensures Trim(x + R.CRLF) == x
  {
    var a, b := x + R.CRLF, x + ['\r'];
    assert a[..|a| - 1] == b && b[..|b| - 1] == x;
    assert !Ends(x[|x| - 1]) && Trim(x) == x;
    assert Trim(b) == x;
  }

  lemma ReadPrintedLine(t: string, i: nat, c: char, text: string)
    requires R.StandsAt(t, i, Line(c, text)) && OneLine(text) && !Ends(c)
    ensures i + |Line(c, text)| <= |t|
    ensures ReadLine(t, i) == Got([c] + text, i + |Line(c, text)|)
  {
    hide R.StandsAt, Trim, PastLineFeed;
    var x := [c] + text;
    R.StandsSplit(t, i, x, R.CRLF);
    R.StandsChar(t, i + |x|, R.CRLF, 0);
    R.StandsChar(t, i + |x|, R.CRLF, 1);
    forall k | i <= k < i + |x| ensures t[k] != '\n' {
      R.StandsChar(t, i, x, k - i);
    }
    PastLineFeedAt(t, i, i + |x| + 1);
    R.StandsSlice(t, i, Line(c, text));
    TrimLine(x);
  }

  lemma HeaderIsLine(c: char, n: nat)
    ensures R.Header(c, n) == Line(c, Digits(n)) && OneLine(Digits(n))
  {
    hide Digits;
    forall k | 0 <= k < |Digits(n)| ensures !Ends(Digits(n)[k]) {
      assert IsDigit(Digits(n)[k]);
    }
  }

  // -------------------------------------------------------------------- scalar values

  lemma ReadScalarLine<F>(fl: Floats<F>, t: string, i: nat, c: char, text: string)
    requires R.StandsAt(t, i, Line(c, text)) && OneLine(text) && !Ends(c) && !Aggregate(c)
    ensures i + |Line(c, text)| <= |t|
    ensures ReadValue(fl, t, i) == Scalar(fl, t, c, text, i + |Line(c, text)|)
  {
    hide R.StandsAt, ReadLine, Scalar, Line;
    ReadPrintedLine(t, i, c, text);
    var x := [c] + text;
    assert x[0] == c && x[1..] == text;
  }

  /** A text that the line type does not admit. */
  predicate Unfit<F>(fl: Floats<F>, c: char, text: string) {
    match c
    case ':' => Atoi(text).None?
    case '$' => Atoi(text).None?
    case '=' => Atoi(text).None? || Atoi(text).value < 4
    case '#' => text != "t" && text != "f"
    case ',' => fl.parse(text).None?
    case '+' => false
    case '-' => false
    case '_' => false
    case '(' => false
    case '*' => Atoi(text).None?
    case '%' => Atoi(text).None?
    case '~' => Atoi(text).None?
    case '>' => Atoi(text).None?
    case _ => true
  }

  /** A line whose text its type does not admit, or of an unknown type, is a bad frame; and so
      is an empty line.  A line without its end is the end of the input. */
  lemma BadFrames<F>(fl: Floats<F>, t: string, i: nat, c: char, text: string)
    ensures R.StandsAt(t, i, Line(c, text)) && OneLine(text) && !Ends(c) && Unfit(fl, c, text) ==>
              i <= |t| && ReadValue(fl, t, i) == BadFrame
    ensures R.StandsAt(t, i, R.CRLF) ==> i <= |t| && ReadValue(fl, t, i) == BadFrame
    ensures i <= |t| && (forall k :: i <= k < |t| ==> t[k] != '\n') ==> ReadValue(fl, t, i) == EndOfInput
  {
    hide R.StandsAt, Line, ReadElems, Atoi;
    if R.StandsAt(t, i, Line(c, text)) && OneLine(text) && !Ends(c) && Unfit(fl, c, text) {
      R.StandsSlice(t, i, Line(c, text));
      ReadPrintedLine(t, i, c, text);
      var x := [c] + text;
      assert x[0] == c && x[1..] == text;
    }
    if R.StandsAt(t, i, R.CRLF) {
      R.StandsSlice(t, i, R.CRLF);
      R.StandsChar(t, i, R.CRLF, 0);
      R.StandsChar(t, i, R.CRLF, 1);
      PastLineFeedAt(t, i, i + 1);
      TrimNothing();
    }
    if i <= |t| && forall k :: i <= k < |t| ==> t[k] != '\n' { NoLineFeed(t, i); }
  }

  lemma TrimNothing()
    ensures Trim(R.CRLF) == []
  {
    assert R.CRLF[..1] == ['\r'] && ['\r'][..0] == [];
    assert Trim(['\r']) == Trim([]);
  }

  lemma {:induction false} NoLineFeed(t: string, i: nat)
    requires i <= |t| && forall k :: i <= k < |t| ==> t[k] != '\n'
    ensures PastLineFeed(t, i) == None
    decreases |t| - i
  {
    if i < |t| { NoLineFeed(t, i + 1); }
  }

  /** A header, n bytes, and a line end. */
  lemma ReadsCounted<F>(fl: Floats<F>, t: string, i: nat, c: char, body: string)
    requires R.StandsAt(t, i, R.Header(c, |body|) + body + R.CRLF) && !Ends(c) && !Aggregate(c) && Fits(|body|)
    ensures var k := i + |R.Header(c, |body|)|;
            && k + |body| + 2 <= |t|
            && ReadValue(fl, t, i) == Scalar(fl, t, c, Digits(|body|), k)
            && ReadBytes(t, k, |body|) == Got(body, k + |body| + 2)
  {
    hide R.StandsAt, R.Header, Scalar, Line, Digits, ReadValue;
    var h := R.Header(c, |body|);
    assert h + body + R.CRLF == h + (body + R.CRLF);
    R.StandsSplit(t, i, h, body + R.CRLF);
    R.StandsSplit(t, i + |h|, body, R.CRLF);
    R.StandsSlice(t, i + |h|, body);
    R.StandsSlice(t, i + |h| + |body|, R.CRLF);
    HeaderIsLine(c, |body|);
    ReadScalarLine(fl, t, i, c, Digits(|body|));
  }

  lemma ReadsBulk<F>(fl: Floats<F>, t: string, i: nat, s: string)
    requires R.StandsAt(t, i, R.Bulk(s)) && Fits(|s|)
    ensures ReadValue(fl, t, i) == Got(Blob(s), i + |R.Bulk(s)|)
  {
    hide R.StandsAt, R.Header, Digits, ReadValue, Atoi, ReadBytes;
    ReadsCounted(fl, t, i, '$', s);
    AtoiOfDigits(|s|);
  }

  lemma ReadsVerbatim<F>(fl: Floats<F>, t: string, i: nat, fmt: string, s: string)
    requires |fmt| == 3 && Fits(|s| + 4)
    requires R.StandsAt(t, i, Render(fl, 3, Verbatim(fmt, s)))
    ensures ReadValue(fl, t, i) == Got(Verbatim(fmt, s), i + |Render(fl, 3, Verbatim(fmt, s))|)
  {
    hide R.StandsAt, R.Header, Digits, ReadValue, Atoi, ReadBytes;
    var body := fmt + [':'] + s;
    ReadsCounted(fl, t, i, '=', body);
    AtoiOfDigits(|body|);
    assert body[..3] == fmt && body[4..] == s;
  }

  lemma ReadsInt<F>(fl: Floats<F>, t: string, i: nat, n: int)
    requires R.StandsAt(t, i, Line(':', FormatInt(n))) && IsInt64(n)
    ensures ReadValue(fl, t, i) == Got(Int(n), i + |Line(':', FormatInt(n))|)
  {
    hide R.StandsAt, FormatInt, ReadValue, Atoi, Line;
    FormatIsOneLine(n);
    ReadScalarLine(fl, t, i, ':', FormatInt(n));
    AtoiOfFormat(n);
  }

  lemma FormatIsOneLine(n: int)
    ensures OneLine(FormatInt(n))
  {
    var d := Digits(if n < 0 then -n else n);
    forall k | 0 <= k < |d| ensures !Ends(d[k]) {
      assert IsDigit(d[k]);
    }
  }

  lemma ReadsNullBulk<F>(fl: Floats<F>, t: string, i: nat)
    requires R.StandsAt(t, i, Line('$', "-1"))
    ensures ReadValue(fl, t, i) == Got(Null, i + |Line('$', "-1")|)
  {
    hide R.StandsAt, ReadValue, Atoi, Line;
    assert FormatInt(-1) == "-1";
    AtoiOfFormat(-1);
    ReadScalarLine(fl, t, i, '$', "-1");
  }

  lemma ReadsFlag<F>(fl: Floats<F>, t: string, i: nat, proto: int, b: bool)
    requires R.StandsAt(t, i, Render(fl, proto, Value<F>.Bool(b)))
    ensures ReadValue(fl, t, i) == Got(Seen(fl, proto, Value<F>.Bool(b)), i + |Render(fl, proto, Value<F>.Bool(b))|)
  {
    hide R.StandsAt, ReadValue, Atoi, Line;
    if proto == 3 {
      ReadScalarLine(fl, t, i, '#', if b then "t" else "f");
    } else {
      assert FormatInt(0) == "0" && FormatInt(1) == "1";
      ReadsInt(fl, t, i, if b then 1 else 0);
    }
  }

  predicate IsScalar<F>(v: Value<F>) {
    !v.Array? && !v.Map? && !v.Set? && !v.Push?
  }

  lemma ReadsScalar<F(!new)>(fl: Floats<F>, proto: int, t: string, i: nat, v: Value<F>)
    requires IsScalar(v) && WellFormed(fl, proto, v) && R.StandsAt(t, i, Render(fl, proto, v))
    ensures ReadValue(fl, t, i) == Got(Seen(fl, proto, v), i + |Render(fl, proto, v)|)
  {
    hide R.StandsAt, R.Bulk, ReadValue, Line, Strip, FormatInt, Atoi, ReadBytes;
    match v
    case Simple(s) => ReadScalarLine(fl, t, i, '+', Strip(s));
    case Error(s) => ReadScalarLine(fl, t, i, '-', Strip(s));
    case Int(n) => ReadsInt(fl, t, i, n);
    case Blob(s) => ReadsBulk(fl, t, i, s);
    case NilBlob => ReadsNullBulk(fl, t, i);
    case Null => if proto == 3 { ReadScalarLine(fl, t, i, '_', []); } else { ReadsNullBulk(fl, t, i); }
    case Double(f) =>
      if proto == 3 { ReadScalarLine(fl, t, i, ',', fl.format(f)); } else { ReadsBulk(fl, t, i, fl.format(f)); }
    case Bool(b) => ReadsFlag(fl, t, i, proto, b);
    case BigNumber(s) =>
      if proto == 3 { ReadScalarLine(fl, t, i, '(', s); } else { ReadsBulk(fl, t, i, s); }
    case Verbatim(fmt, s) =>
      if proto == 3 { ReadsVerbatim(fl, t, i, fmt, s); } else { ReadsBulk(fl, t, i, s); }
  }

  // ------------------------------------------------------------------------ the trees

  /** The type byte of an aggregate. */
  function Mark<F>(proto: int, v: Value<F>): char {
    if proto != 3 || v.Array? then '*' else if v.Map? then '%' else if v.Set? then '~' else '>'
  }

  lemma ReadsHead<F>(fl: Floats<F>, proto: int, t: string, i: nat, v: Value<F>)
    requires !IsScalar(v) && R.StandsAt(t, i, Head(proto, v)) && Fits(|v.elems|)
    requires proto == 3 && v.Map? ==> |v.elems| % 2 == 0
    ensures var c, k := Mark(proto, v), i + |Head(proto, v)|;
            && k <= |t|
            && ReadValue(fl, t, i) ==
               match ReadElems(fl, t, k, |v.elems|) {
                 case Got(vs, next) => Got(Wrapped(c, vs), next)
                 case EndOfInput => EndOfInput
                 case BadFrame => BadFrame
                 case Panic => Panic
               }
  {
    hide R.StandsAt, R.Header, Line, Digits, Atoi, ReadElems, ReadLine;
    var c, n := Mark(proto, v), |v.elems|;
    var d := if c == '%' then n / 2 else n;
    HeaderIsLine(c, d);
    ReadPrintedLine(t, i, c, Digits(d));
    AtoiOfDigits(d);
    var x := [c] + Digits(d);
    assert x[0] == c && x[1..] == Digits(d);
  }

  lemma AggregateParts<F(!new)>(fl: Floats<F>, proto: int, v: Value<F>)
    requires !IsScalar(v)
    ensures Render(fl, proto, v) == Head(proto, v) + RenderAll(fl, proto, v.elems)
    ensures Seen(fl, proto, v) == Wrapped(Mark(proto, v), SeenAll(fl, proto, v.elems))
    ensures WellFormed(fl, proto, v) ==>
              && Fits(|v.elems|) && WellFormedAll(fl, proto, v.elems)
              && (proto == 3 && v.Map? ==> |v.elems| % 2 == 0)
  {
    hide Head, RenderAll, SeenAll, WellFormedAll;
  }

  /** Every well-formed reply, in either protocol: the client reads back exactly what it
      should see of it, and stops at the first byte after it. */
  lemma {:induction false} ReplyRoundTrip<F(!new)>(fl: Floats<F>, proto: int, t: string, i: nat, v: Value<F>)
    requires WellFormed(fl, proto, v) && R.StandsAt(t, i, Render(fl, proto, v))
    ensures i <= |t| && ReadValue(fl, t, i) == Got(Seen(fl, proto, v), i + |Render(fl, proto, v)|)
    decreases v, 0
  {
    hide R.StandsAt, ReadValue, Head, ReadElems, Render, RenderAll, Seen;
    hide SeenAll, WellFormed, WellFormedAll, Mark, Wrapped;
    R.StandsSlice(t, i, Render(fl, proto, v));
    if IsScalar(v) {
      ReadsScalar(fl, proto, t, i, v);
    } else {
      AggregateParts(fl, proto, v);
      R.StandsSplit(t, i, Head(proto, v), RenderAll(fl, proto, v.elems));
      ReadsHead(fl, proto, t, i, v);
      ElemsRoundTrip(fl, proto, t, i + |Head(proto, v)|, v.elems);
    }
  }

  lemma {:induction false} ElemsRoundTrip<F(!new)>(fl: Floats<F>, proto: int, t: string, i: nat, vs: seq<Value<F>>)
    requires WellFormedAll(fl, proto, vs) && R.StandsAt(t, i, RenderAll(fl, proto, vs))
    ensures i <= |t|
    ensures ReadElems(fl, t, i, |vs|) == Got(SeenAll(fl, proto, vs), i + |RenderAll(fl, proto, vs)|)
    decreases vs, 1
  {
    hide R.StandsAt, ReadValue, Render, Seen, WellFormed;
    R.StandsSlice(t, i, RenderAll(fl, proto, vs));
    if vs != [] {
      var front, last := vs[..|vs| - 1], vs[|vs| - 1];
      R.StandsSplit(t, i, RenderAll(fl, proto, front), Render(fl, proto, last));
      ElemsRoundTrip(fl, proto, t, i, front);
      ReplyRoundTrip(fl, proto, t, i + |RenderAll(fl, proto, front)|, last);
    }
  }

  /** Protocol 3: a well-formed tree comes back unchanged if and only if it is plain,
      and the rest of the stream is untouched. */
  lemma Proto3RoundTrip<F(!new)>(fl: Floats<F>, v: Value<F>, rest: string)
    requires WellFormed(fl, 3, v)
    ensures var t, n := Render(fl, 3, v) + rest, |Render(fl, 3, v)|;
            && (ReadValue(fl, t, 0) == Got(v, n) <==> Plain(v))
            && t[n..] == rest
  {
    hide Render, R.StandsAt, ReadValue, WellFormed, Seen, Plain;
    R.StandsHead(Render(fl, 3, v), rest);
    ReplyRoundTrip(fl, 3, Render(fl, 3, v) + rest, 0, v);
    PlainIsUnchanged(fl, v);
  }

  // ----------------------------------------------------------------------- the client

  /** `RESPClient`, as a reader: the bytes of the connection and how far it has read. */
  class Client<F> {
    const fl: Floats<F>
    const input: string
    var pos: nat

    ghost predicate Valid()
      reads this
    {
      pos <= |input|
    }

    constructor (fl: Floats<F>, input: string)
      ensures Valid() && pos == 0 && this.fl == fl && this.input == input
    {
      this.fl, this.input, pos := fl, input, 0;
    }

    method NextLine() returns (r: Outcome<string>)
      requires Valid()
      modifies this
      ensures Valid() && r == ReadLine(input, old(pos))
      ensures r.Got? ==> pos == r.next
    {
      hide Trim;
      var start := pos;
      while pos < |input| && input[pos] != '\n'
        invariant start <= pos <= |input| && PastLineFeed(input, pos) == PastLineFeed(input, start)
      {
        pos := pos + 1;
      }
      if pos == |input| { return EndOfInput; }
      pos := pos + 1;
      return Got(Trim(input[start..pos]), pos);
    }

    /** One reply frame. */
    method NextValue() returns (r: Outcome<Value<F>>)
      requires Valid()
      modifies this
      ensures Valid() && r == ReadValue(fl, input, old(pos))
      ensures r.Got? ==> pos == r.next
      decreases |input| - pos, 0
    {
      hide Scalar, Count, ReadLine, ReadElems;
      var head := NextLine();
      match head
      case EndOfInput => return EndOfInput;
      case BadFrame => return BadFrame;
      case Panic => return Panic;
      case Got(line, next) =>
        if line == [] { return BadFrame; }
        if !Aggregate(line[0]) {
          r := Scalar(fl, input, line[0], line[1..], next);
          if r.Got? { pos := r.next; }
          return;
        }
        var n := Count(line[0], line[1..]);
        if n.None? { return BadFrame; }
        if n.value < 0 { return if line[0] == '*' then Got(Null, next) else Panic; }
        var all := NextElems(n.value);
        match all
        case EndOfInput => return EndOfInput;
        case BadFrame => return BadFrame;
        case Panic => return Panic;
        case Got(vs, k) => return Got(Wrapped(line[0], vs), k);
    }

    method NextElems(n: nat) returns (r: Outcome<seq<Value<F>>>)
      requires Valid()
      modifies this
      ensures Valid() && r == ReadElems(fl, input, old(pos), n)
      ensures r.Got? ==> pos == r.next
      decreases |input| - pos, 1
    {
      hide ReadValue;
      var start, elems, i := pos, [], 0;
      while i < n
        invariant 0 <= i <= n && start <= pos <= |input|
        invariant ReadElems(fl, input, start, i) == Got(elems, pos)
      {
        var v := NextValue();
        match v {
          case EndOfInput => FailureSticks(fl, input, start, i + 1, n); return EndOfInput;
          case BadFrame => FailureSticks(fl, input, start, i + 1, n); return BadFrame;
          case Panic => FailureSticks(fl, input, start, i + 1, n); return Panic;
          case Got(x, next) => elems := elems + [x];
        }
        i := i + 1;
      }
      return Got(elems, pos);
    }
  }

  /** An element that cannot be read ends the whole aggregate the same way. */
  lemma {:induction false} FailureSticks<F>(fl: Floats<F>, t: string, i: nat, m: nat, n: nat)
    requires i <= |t| && m <= n && !ReadElems(fl, t, i, m).Got?
    ensures ReadElems(fl, t, i, n) == ReadElems(fl, t, i, m)
    decreases n
  {
    hide ReadValue;
    if m < n { FailureSticks(fl, t, i, m, n - 1); }
  }
}
