/**
 Replies on the wire (lib/resp/value.go, resp.go, resp3.go): a tree of typed values and
 its rendering for protocol 3 and, with the downgrades, for protocol 2.
 */
module RespValue {
  import opened Basics
  import opened Decimal
  import Resp

  /** A reply.  `F` stands for floating-point numbers; maps hold key, value, key, value;
      `NilBlob` is the bulk string over a nil byte slice. */
  datatype Value<F> =
    | Null | Simple(s: string) | Error(s: string) | Int(n: int) | Double(f: F) | Bool(b: bool)
    | Blob(s: string) | NilBlob | BigNumber(s: string) | Verbatim(fmt: string, s: string)
    | Array(elems: seq<Value>) | Map(elems: seq<Value>) | Set(elems: seq<Value>) | Push(elems: seq<Value>)

  /** Printing and parsing of floating-point numbers. */
  datatype Floats<!F> = Floats(format: F -> string, parse: string -> Option<F>)

  /** `stripNewlines`. */
  function Strip(s: string): (r: string)
    ensures |r| == |s| && OneLine(r)
    ensures r == s <==> OneLine(s)
  {
    if s == [] then [] else Strip(s[..|s| - 1]) + [if Ends(s[|s| - 1]) then ' ' else s[|s| - 1]]
  }

  /** Line ends become blanks, and nothing else changes. */
  lemma {:induction false} StripAt(s: string, k: nat)
    requires k < |s|
    ensures Strip(s)[k] == if s[k] == '\r' || s[k] == '\n' then ' ' else s[k]
    decreases |s|
  {
    if k < |s| - 1 { StripAt(s[..|s| - 1], k); }
  }

  predicate Ends(c: char) {
    c == '\r' || c == '\n'
  }

  predicate OneLine(s: string) {
    forall k :: 0 <= k < |s| ==> !Ends(s[k])
  }

  /** A type byte, a text and a line end. */
  function Line(c: char, text: string): string {
    [c] + text + Resp.CRLF
  }

  /** The header of an aggregate. */
  function Head<F>(proto: int, v: Value<F>): string
    requires v.Array? || v.Map? || v.Set? || v.Push?
  {
    var n := |v.elems|;
    if proto != 3 || v.Array? then Resp.Header('*', n)
    else if v.Map? then Resp.Header('%', n / 2)
    else if v.Set? then Resp.Header('~', n)
    else Resp.Header('>', n)
  }

  /** What AppendValue appends. */
  function Render<F>(fl: Floats<F>, proto: int, v: Value<F>): string
    decreases v, 0
  {
    match v
    case Simple(s) => Line('+', Strip(s))
    case Error(s) => Line('-', Strip(s))
    case Int(n) => Line(':', FormatInt(n))
    case Blob(s) => Resp.Bulk(s)
    case NilBlob => Line('$', "-1")
    case Null => if proto == 3 then Line('_', []) else Line('$', "-1")
    case Double(f) => if proto == 3 then Line(',', fl.format(f)) else Resp.Bulk(fl.format(f))
    case Bool(b) => if proto == 3 then Line('#', if b then "t" else "f") else Line(':', if b then "1" else "0")
    case BigNumber(s) => if proto == 3 then Line('(', s) else Resp.Bulk(s)
    case Verbatim(fmt, s) =>
      if proto == 3 then Resp.Header('=', |s| + 4) + (fmt + [':'] + s) + Resp.CRLF else Resp.Bulk(s)
    case _ => Head(proto, v) + RenderAll(fl, proto, v.elems)
  }

  function RenderAll<F>(fl: Floats<F>, proto: int, vs: seq<Value<F>>): string
    decreases vs, 1
  {
    if vs == [] then [] else RenderAll(fl, proto, vs[..|vs| - 1]) + Render(fl, proto, vs[|vs| - 1])
  }

  lemma RenderAggregate<F>(fl: Floats<F>, proto: int, v: Value<F>)
    requires v.Array? || v.Map? || v.Set? || v.Push?
    ensures Render(fl, proto, v) == Head(proto, v) + RenderAll(fl, proto, v.elems)
  {
    hide Head, RenderAll;
  }

  lemma RenderSnoc<F>(fl: Floats<F>, proto: int, vs: seq<Value<F>>, v: Value<F>)
    ensures RenderAll(fl, proto, vs + [v]) == RenderAll(fl, proto, vs) + Render(fl, proto, v)
  {
    hide Render;
    assert (vs + [v])[..|vs|] == vs;
  }

  /** The appender of the source: it recurses over the tree and extends the buffer. */
  method AppendValue<F>(fl: Floats<F>, b: string, proto: int, v: Value<F>) returns (r: string)
    ensures r == b + Render(fl, proto, v)
    decreases v, 0
  {
    hide Head, RenderAll, Render;
    if v.Array? || v.Map? || v.Set? || v.Push? {
      RenderAggregate(fl, proto, v);
      r := AppendElems(fl, b + Head(proto, v), proto, v.elems);
    } else {
      r := b + Render(fl, proto, v);
    }
  }

  /** The loop over the elements of an aggregate. */
  method AppendElems<F>(fl: Floats<F>, b: string, proto: int, vs: seq<Value<F>>) returns (r: string)
    ensures r == b + RenderAll(fl, proto, vs)
    decreases vs, 1
  {
    hide Render;
    r := b;
    var i := 0;
    while i < |vs|
      invariant 0 <= i <= |vs| && r == b + RenderAll(fl, proto, vs[..i])
    {
      assert vs[..i + 1] == vs[..i] + [vs[i]];
      RenderSnoc(fl, proto, vs[..i], vs[i]);
      r := AppendValue(fl, r, proto, vs[i]);
      i := i + 1;
    }
    assert vs[..i] == vs;
  }

  /** The frames of the protocol, written out: those that both versions share, then what
      version 3 and what version 2 get. */
  lemma ScalarFrames<F>(fl: Floats<F>, proto: int, s: string, fmt: string, n: int, f: F)
    requires OneLine(s)
    ensures Render(fl, proto, Simple(s)) == "+" + s + "\r\n" && Render(fl, proto, Error(s)) == "-" + s + "\r\n"
    ensures Render(fl, proto, Int(n)) == ":" + FormatInt(n) + "\r\n" && Render(fl, proto, NilBlob) == "$-1\r\n"
    ensures Render(fl, proto, Blob(s)) == "$" + Digits(|s|) + "\r\n" + s + "\r\n"
    ensures proto == 3 ==>
              && Render(fl, 3, Null) == "_\r\n"
              && Render(fl, 3, Bool(true)) == "#t\r\n" && Render(fl, 3, Bool(false)) == "#f\r\n"
              && Render(fl, 3, Double(f)) == "," + fl.format(f) + "\r\n"
              && Render(fl, 3, BigNumber(s)) == "(" + s + "\r\n"
              && Render(fl, 3, Verbatim(fmt, s)) == "=" + Digits(|s| + 4) + "\r\n" + fmt + ":" + s + "\r\n"
    ensures proto == 2 ==>
              && Render(fl, 2, Null) == "$-1\r\n"
              && Render(fl, 2, Bool(true)) == ":1\r\n" && Render(fl, 2, Bool(false)) == ":0\r\n"
              && Render(fl, 2, Double(f)) == Render(fl, 2, Blob(fl.format(f)))
              && Render(fl, 2, BigNumber(s)) == Render(fl, 2, Verbatim(fmt, s)) == Render(fl, 2, Blob(s))
  {
    hide Digits, FormatInt, Strip;
  }

  /** Aggregates announce their elements, a map its pairs; version 2 gets arrays. */
  lemma AggregateFrames<F>(fl: Floats<F>, vs: seq<Value<F>>)
    ensures forall proto :: Render(fl, proto, Array(vs)) == "*" + Digits(|vs|) + "\r\n" + RenderAll(fl, proto, vs)
    ensures Render(fl, 3, Map(vs)) == "%" + Digits(|vs| / 2) + "\r\n" + RenderAll(fl, 3, vs)
    ensures Render(fl, 3, Set(vs)) == "~" + Digits(|vs|) + "\r\n" + RenderAll(fl, 3, vs)
    ensures Render(fl, 3, Push(vs)) == ">" + Digits(|vs|) + "\r\n" + RenderAll(fl, 3, vs)
    ensures forall v <- {Map(vs), Set(vs), Push(vs)} ::
              Render(fl, 2, v) == "*" + Digits(|vs|) + "\r\n" + RenderAll(fl, 2, vs)
  {
    hide RenderAll, Digits;
  }

  // ------------------------------------------------------- what a client should see

  /** The value a client is told: for protocol 2, maps, sets and pushes become arrays,
      doubles, big numbers and verbatim strings become bulk strings, booleans become 1
      and 0; in both, line ends in simple texts become blanks and a nil bulk is null. */
  function Seen<F>(fl: Floats<F>, proto: int, v: Value<F>): Value<F>
    decreases v, 0
  {
    match v
    case Simple(s) => Simple(Strip(s))
    case Error(s) => Error(Strip(s))
    case NilBlob => Null
    case Double(f) => if proto == 3 then v else Blob(fl.format(f))
    case Bool(b) => if proto == 3 then v else Int(if b then 1 else 0)
    case BigNumber(s) => if proto == 3 then v else Blob(s)
    case Verbatim(_, s) => if proto == 3 then v else Blob(s)
    case Array(vs) => Array(SeenAll(fl, proto, vs))
    case Map(vs) => if proto == 3 then Map(SeenAll(fl, proto, vs)) else Array(SeenAll(fl, proto, vs))
    case Set(vs) => if proto == 3 then Set(SeenAll(fl, proto, vs)) else Array(SeenAll(fl, proto, vs))
    case Push(vs) => if proto == 3 then Push(SeenAll(fl, proto, vs)) else Array(SeenAll(fl, proto, vs))
    case _ => v
  }

  function SeenAll<F>(fl: Floats<F>, proto: int, vs: seq<Value<F>>): (r: seq<Value<F>>)
    ensures |r| == |vs|
    decreases vs, 1
  {
    if vs == [] then [] else SeenAll(fl, proto, vs[..|vs| - 1]) + [Seen(fl, proto, vs[|vs| - 1])]
  }

  /** No line end in a simple text and no nil bulk, anywhere in the tree. */
  predicate Plain<F>(v: Value<F>)
    decreases v, 0
  {
    match v
    case Simple(s) => OneLine(s)
    case Error(s) => OneLine(s)
    case NilBlob => false
    case Array(vs) => PlainAll(vs)
    case Map(vs) => PlainAll(vs)
    case Set(vs) => PlainAll(vs)
    case Push(vs) => PlainAll(vs)
    case _ => true
  }

  predicate PlainAll<F>(vs: seq<Value<F>>)
    decreases vs, 1
  {
    vs == [] || (PlainAll(vs[..|vs| - 1]) && Plain(vs[|vs| - 1]))
  }

  /** Protocol 3 shows a tree unchanged exactly when it is plain. */
  lemma {:induction false} PlainIsUnchanged<F>(fl: Floats<F>, v: Value<F>)
    ensures Seen(fl, 3, v) == v <==> Plain(v)
    decreases v, 0
  {
    hide Strip;
    if v.Array? || v.Map? || v.Set? || v.Push? { PlainAllUnchanged(fl, v.elems); }
  }

  lemma {:induction false} PlainAllUnchanged<F>(fl: Floats<F>, vs: seq<Value<F>>)
    ensures SeenAll(fl, 3, vs) == vs <==> PlainAll(vs)
    decreases vs, 1
  {
    hide Seen, Plain;
    if vs != [] {
      var front, last := vs[..|vs| - 1], vs[|vs| - 1];
      PlainAllUnchanged(fl, front);
      PlainIsUnchanged(fl, last);
      var all := SeenAll(fl, 3, vs);
      assert all[..|vs| - 1] == SeenAll(fl, 3, front) && all[|vs| - 1] == Seen(fl, 3, last);
      assert vs == front + [last];
    }
  }

  // --------------------------------------------------------------- well-formed trees

  predicate Fits(n: int) {
    n + 2 <= MAX64
  }

  /** The floating-point number survives print and parse, on one line. */
  ghost predicate GoodFloat<F(!new)>(fl: Floats<F>, f: F) {
    OneLine(fl.format(f)) && fl.parse(fl.format(f)) == Some(f)
  }

  /** Integers and lengths of 64 bits; in protocol 3, big numbers on one line, verbatim
      tags of three bytes, maps of pairs, and doubles that survive print and parse. */
  ghost predicate WellFormed<F(!new)>(fl: Floats<F>, proto: int, v: Value<F>)
    decreases v, 0
  {
    match v
    case Int(n) => IsInt64(n)
    case Blob(s) => Fits(|s|)
    case Double(f) => if proto == 3 then GoodFloat(fl, f) else Fits(|fl.format(f)|)
    case BigNumber(s) => if proto == 3 then OneLine(s) else Fits(|s|)
    case Verbatim(fmt, s) => if proto == 3 then |fmt| == 3 && Fits(|s| + 4) else Fits(|s|)
    case Array(vs) => Fits(|vs|) && WellFormedAll(fl, proto, vs)
    case Map(vs) => Fits(|vs|) && (proto == 3 ==> |vs| % 2 == 0) && WellFormedAll(fl, proto, vs)
    case Set(vs) => Fits(|vs|) && WellFormedAll(fl, proto, vs)
    case Push(vs) => Fits(|vs|) && WellFormedAll(fl, proto, vs)
    case _ => true
  }

  ghost predicate WellFormedAll<F(!new)>(fl: Floats<F>, proto: int, vs: seq<Value<F>>)
    decreases vs, 1
  {
    vs == [] || (WellFormedAll(fl, proto, vs[..|vs| - 1]) && WellFormed(fl, proto, vs[|vs| - 1]))
  }
}
