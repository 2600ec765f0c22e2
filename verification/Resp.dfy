/**
 The wire form of commands (lib/resp/resp.go `AppendArray`, `AppendBulk`): an array
 header and one bulk string per argument.  Clients send commands in it and the
 append-only file stores records in it.
 */
module Resp {
  import opened Basics
  import opened Decimal

  const CRLF: string := ['\r', '\n']

  /** `appendPrefix`: a type byte, a number and a line end. */
  function Header(c: char, n: nat): string {
    [c] + Digits(n) + CRLF
  }

  function Bulk(s: string): string {
    Header('$', |s|) + s + CRLF
  }

  function Bulks(args: seq<string>): string {
    if args == [] then [] else Bulk(args[0]) + Bulks(args[1..])
  }

  function Array(args: seq<string>): string {
    Header('*', |args|) + Bulks(args)
  }

  /** The encodings of several commands, one after the other. */
  function Stream(cmds: seq<seq<string>>): string {
    if cmds == [] then [] else Array(cmds[0]) + Stream(cmds[1..])
  }

  /** Text x stands in t at offset i. */
  predicate StandsAt(t: string, i: nat, x: string) {
    i + |x| <= |t| && t[i..i + |x|] == x
  }

  lemma StandsSplit(t: string, i: nat, x: string, y: string)
    requires StandsAt(t, i, x + y)
    ensures StandsAt(t, i, x) && StandsAt(t, i + |x|, y)
  {
    var z := t[i..i + |x + y|];
    assert t[i..i + |x|] == z[..|x|];
    assert t[i + |x|..i + |x| + |y|] == z[|x|..];
  }

  lemma StandsChar(t: string, i: nat, x: string, k: nat)
    requires StandsAt(t, i, x) && k < |x|
    ensures t[i + k] == x[k]
  {
    assert t[i..i + |x|][k] == t[i + k];
  }

  lemma StandsHead(x: string, y: string)
    ensures StandsAt(x + y, 0, x)
  {
    assert (x + y)[0..|x|] == x;
  }

  lemma StandsTail(x: string, y: string)
    ensures StandsAt(x + y, |x|, y)
  {
    assert (x + y)[|x|..|x| + |y|] == y;
  }

  lemma StandsSlice(t: string, i: nat, x: string)
    requires StandsAt(t, i, x)
    ensures i + |x| <= |t| && t[i..i + |x|] == x
  {
  }

  lemma SliceOfPrefix(t: string, m: nat, x: nat, y: nat)
    requires x <= y <= m <= |t|
    ensures t[..m][x..y] == t[x..y]
  {
  }

  /** A header that stands in the text, taken apart. */
  lemma HeaderParts(t: string, i: nat, c: char, n: nat)
    requires StandsAt(t, i, Header(c, n))
    ensures var d := |Digits(n)|;
            && i + d + 2 < |t| && |Header(c, n)| == d + 3
            && t[i] == c && i + 1 + d <= |t| && t[i + 1..i + 1 + d] == Digits(n)
            && t[i + 1 + d] == '\r' && t[i + 2 + d] == '\n'
            && (forall k :: i < k < i + 2 + d ==> t[k] != '\n')
            && (forall k :: i < k < i + 1 + d ==> t[k] != '\r')
  {
    hide Digits, StandsAt;
    var d := Digits(n);
    assert Header(c, n) == [c] + (d + CRLF);
    StandsSplit(t, i, [c], d + CRLF);
    StandsSplit(t, i + 1, d, CRLF);
    StandsChar(t, i, [c], 0);
    StandsChar(t, i + 1 + |d|, CRLF, 0);
    StandsChar(t, i + 1 + |d|, CRLF, 1);
    forall k | i < k < i + 1 + |d| ensures t[k] != '\r' && t[k] != '\n' {
      StandsChar(t, i + 1, d, k - i - 1);
      assert IsDigit(d[k - i - 1]);
    }
  }

  /** A bulk string that stands in the text, taken apart. */
  lemma BulkParts(t: string, i: nat, s: string)
    requires StandsAt(t, i, Bulk(s))
    ensures var h := |Header('$', |s|)|;
            && |Bulk(s)| == h + |s| + 2 && i + h + |s| + 2 <= |t|
            && StandsAt(t, i, Header('$', |s|)) && t[i + h..i + h + |s|] == s
            && t[i + h + |s|] == '\r' && t[i + h + |s| + 1] == '\n'
  {
    var h := Header('$', |s|);
    assert Bulk(s) == h + (s + CRLF);
    StandsSplit(t, i, h, s + CRLF);
    StandsSplit(t, i + |h|, s, CRLF);
    StandsChar(t, i + |h| + |s|, CRLF, 0);
    StandsChar(t, i + |h| + |s|, CRLF, 1);
  }
}
