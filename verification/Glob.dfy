/**
 The glob matcher (lib/commands/glob.go): stars, single characters, classes with ranges,
 negation and escapes.  Its meaning is stated without an algorithm: the string can be cut
 into as many pieces as the pattern has tokens, each piece fitting its token.
 */
module Glob {
  import opened Basics

  // ------------------------------------------------------------------------- patterns

  datatype ClassItem = One(c: char) | Range(a: char, b: char)

  /** `Broken` is a class that does not end. */
  datatype Token = Star | Any | Literal(c: char) | Class(negated: bool, items: seq<ClassItem>) | Broken

  /** The items of a class up to its bracket, and the pattern after it. */
  function ParseClass(p: string, items: seq<ClassItem>): (r: Option<(seq<ClassItem>, string)>)
    ensures r.Some? ==> |r.value.1| < |p|
    decreases |p|
  {
    if p == [] then None
    else if p[0] == '\\' then
      if |p| < 2 then None else ParseClass(p[2..], items + [One(p[1])])
    else if p[0] == ']' then Some((items, p[1..]))
    else if |p| >= 3 && p[1] == '-' then ParseClass(p[3..], items + [Range(p[0], p[2])])
    else ParseClass(p[1..], items + [One(p[0])])
  }

  predicate Negated(p: string) {
    p != [] && p[0] == '^'
  }

  function AfterSign(p: string): string {
    if Negated(p) then p[1..] else p
  }

  function Tokens(p: string): seq<Token>
    decreases |p|
  {
    if p == [] then []
    else if p[0] == '*' then [Star] + Tokens(p[1..])
    else if p[0] == '?' then [Any] + Tokens(p[1..])
    else if p[0] == '[' then
      var c := ParseClass(AfterSign(p[1..]), []);
      if c.None? then [Broken] else [Class(Negated(p[1..]), c.value.0)] + Tokens(c.value.1)
    else if p[0] == '\\' && |p| >= 2 then [Literal(p[1])] + Tokens(p[2..])
    else [Literal(p[0])] + Tokens(p[1..])
  }

  // -------------------------------------------------------------------------- meaning

  predicate InItem(it: ClassItem, c: char) {
    match it
    case One(x) => c == x
    case Range(a, b) => a <= c <= b || b <= c <= a
  }

  predicate InItems(items: seq<ClassItem>, c: char) {
    exists k :: 0 <= k < |items| && InItem(items[k], c)
  }

  /** The strings one token stands for. */
  predicate Fits(t: Token, s: string) {
    match t
    case Star => true
    case Any => |s| == 1
    case Literal(c) => s == [c]
    case Class(negated, items) => |s| == 1 && InItems(items, s[0]) != negated
    case Broken => false
  }

  function Joined(parts: seq<string>): string {
    if parts == [] then [] else parts[0] + Joined(parts[1..])
  }

  ghost predicate Splits(ts: seq<Token>, parts: seq<string>, s: string) {
    && |parts| == |ts| && Joined(parts) == s
    && forall i :: 0 <= i < |ts| ==> Fits(ts[i], parts[i])
  }

  ghost predicate Meant(ts: seq<Token>, s: string) {
    exists parts :: Splits(ts, parts, s)
  }

  /** The same, token by token. */
  ghost predicate Matches(ts: seq<Token>, s: string)
    decreases |ts|
  {
    if ts == [] then s == []
    else exists i :: 0 <= i <= |s| && Fits(ts[0], s[..i]) && Matches(ts[1..], s[i..])
  }

  lemma {:induction false} MatchesIsMeant(ts: seq<Token>, s: string)
    ensures Matches(ts, s) <==> Meant(ts, s)
    decreases |ts|
  {
    hide Fits;
    if ts == [] {
      assert s == [] ==> Splits(ts, [], s);
    } else {
      if Matches(ts, s) {
        var i :| 0 <= i <= |s| && Fits(ts[0], s[..i]) && Matches(ts[1..], s[i..]);
        MatchesIsMeant(ts[1..], s[i..]);
        var rest :| Splits(ts[1..], rest, s[i..]);
        var parts := [s[..i]] + rest;
        assert parts[1..] == rest && s[..i] + s[i..] == s;
        assert Splits(ts, parts, s);
      }
      if Meant(ts, s) {
        var parts :| Splits(ts, parts, s);
        var i := |parts[0]|;
        assert s == parts[0] + Joined(parts[1..]);
        assert s[..i] == parts[0] && s[i..] == Joined(parts[1..]);
        assert Splits(ts[1..], parts[1..], s[i..]);
        MatchesIsMeant(ts[1..], s[i..]);
      }
    }
  }

  // ------------------------------------------------------------------------ the steps

  predicate OneChar(t: Token) {
    t.Any? || t.Literal? || t.Class?
  }

  lemma ConsumeOne(t: Token, ts: seq<Token>, s: string)
    requires OneChar(t)
    ensures Matches([t] + ts, s) <==> s != [] && Fits(t, s[..1]) && Matches(ts, s[1..])
  {
    hide InItems;
    var all := [t] + ts;
    assert all[1..] == ts;
    if Matches(all, s) {
      var i :| 0 <= i <= |s| && Fits(t, s[..i]) && Matches(ts, s[i..]);
      assert |s[..i]| == 1 && i == 1;
    }
  }

  lemma BrokenFails(ts: seq<Token>, s: string)
    ensures !Matches([Broken] + ts, s)
  {
  }

  lemma StarTries(ts: seq<Token>, s: string)
    ensures Matches([Star] + ts, s) <==> exists i :: 0 <= i <= |s| && Matches(ts, s[i..])
  {
    assert ([Star] + ts)[1..] == ts;
    if i :| 0 <= i <= |s| && Matches(ts, s[i..]) {
      assert Fits(Star, s[..i]);
    }
  }

  lemma DoubleStar(ts: seq<Token>, s: string)
    ensures Matches([Star] + ([Star] + ts), s) <==> Matches([Star] + ts, s)
  {
    hide Matches;
    StarTries([Star] + ts, s);
    StarTries(ts, s);
    if i :| 0 <= i <= |s| && Matches([Star] + ts, s[i..]) {
      StarTries(ts, s[i..]);
      var j :| 0 <= j <= |s[i..]| && Matches(ts, s[i..][j..]);
      assert s[i..][j..] == s[i + j..];
    }
    assert s[0..] == s;
  }

  lemma LastStar(s: string)
    ensures Matches([Star], s)
  {
    hide Matches, Fits;
    assert [Star] == [Star] + [];
    StarTries([], s);
    EmptyMatch();
    assert s[|s|..] == [];
  }

  lemma EmptyMatch()
    ensures Matches([], [])
  {
  }

  // ----------------------------------------------------------------------- the matcher

  /** The class loop: whether the next character is in the class, and the pattern from
      the closing bracket's successor on; None for a class that does not end. */
  method MatchClass(start: string, str: string) returns (r: Option<string>, matched: bool)
    ensures r.Some? == ParseClass(start, []).Some?
    ensures r.Some? ==> r.value == ParseClass(start, []).value.1
                        && (str != [] ==> matched == InItems(ParseClass(start, []).value.0, str[0]))
                        && (str == [] ==> !matched)
  {
    hide InItems;
    var p := start;
    matched := false;
    ghost var items: seq<ClassItem> := [];
    NoItems(str);
    while true
      invariant ParseClass(p, items) == ParseClass(start, [])
      invariant matched == (str != [] && InItems(items, str[0]))
      decreases |p|
    {
      if |p| == 0 { return None, matched; }
      if p[0] == '\\' {
        if |p| < 2 { return None, matched; }
        OneMore(items, One(p[1]), str);
        if |str| > 0 && p[1] == str[0] { matched := true; }
        items, p := items + [One(p[1])], p[2..];
      } else if p[0] == ']' {
        return Some(p[1..]), matched;
      } else if |p| >= 3 && p[1] == '-' {
        OneMore(items, Range(p[0], p[2]), str);
        var lo, hi := p[0], p[2];
        if lo > hi { lo, hi := hi, lo; }
        if |str| > 0 && str[0] >= lo && str[0] <= hi { matched := true; }
        items, p := items + [Range(p[0], p[2])], p[3..];
      } else {
        OneMore(items, One(p[0]), str);
        if |str| > 0 && p[0] == str[0] { matched := true; }
        items, p := items + [One(p[0])], p[1..];
      }
    }
  }

  lemma NoItems(str: string)
    ensures str != [] ==> !InItems([], str[0])
  {
  }

  lemma OneMore(items: seq<ClassItem>, it: ClassItem, str: string)
    ensures str != [] ==> InItems(items + [it], str[0]) == (InItems(items, str[0]) || InItem(it, str[0]))
  {
    if str != [] {
      var c, more := str[0], items + [it];
      assert more[|items|] == it;
      if k :| 0 <= k < |items| && InItem(items[k], c) { assert more[k] == items[k]; }
    }
  }

  /** One turn of the loop on a pattern that does not start with a star: either the
      match fails, or one character and one token are done. */
  method Step(p: string, str: string) returns (ok: bool, rest: string)
    requires p != [] && p[0] != '*'
    ensures ok ==> str != [] && |rest| < |p| && (Matches(Tokens(p), str) <==> Matches(Tokens(rest), str[1..]))
    ensures !ok ==> !Matches(Tokens(p), str)
  {
    hide Matches, ParseClass, InItems;
    rest := p;
    if p[0] == '?' {
      ConsumeOne(Any, Tokens(p[1..]), str);
      return |str| > 0, p[1..];
    } else if p[0] == '[' {
      var negate := |p| > 1 && p[1] == '^';
      var body := if negate then p[2..] else p[1..];
      assert body == AfterSign(p[1..]) && negate == Negated(p[1..]);
      var after, matched := MatchClass(body, str);
      if after.None? {
        assert Tokens(p) == [Broken] + [];
        BrokenFails([], str);
        return false, p;
      }
      ConsumeOne(Class(negate, ParseClass(body, []).value.0), Tokens(after.value), str);
      if matched == negate { return false, p; }
      if |str| == 0 { return false, p; }
      return true, after.value;
    } else {
      var q := if p[0] == '\\' && |p| >= 2 then p[1..] else p;
      assert Tokens(p) == [Literal(q[0])] + Tokens(q[1..]);
      ConsumeOne(Literal(q[0]), Tokens(q[1..]), str);
      if |str| == 0 || q[0] != str[0] { return false, p; }
      return true, q[1..];
    }
  }

  lemma EmptyTokens(str: string)
    ensures Matches(Tokens([]), str) <==> str == []
  {
  }

  /** Collapsing a run of stars keeps the meaning. */
  lemma SkipStar(p: string, str: string)
    requires |p| > 1 && p[0] == '*' && p[1] == '*'
    ensures Matches(Tokens(p), str) <==> Matches(Tokens(p[1..]), str)
  {
    hide Matches;
    var q := p[1..];
    assert Tokens(p) == [Star] + Tokens(q) && Tokens(q) == [Star] + Tokens(q[1..]);
    DoubleStar(Tokens(q[1..]), str);
  }

  lemma StarThen(p: string, str: string)
    requires p != [] && p[0] == '*'
    ensures Matches(Tokens(p), str) <==> exists i :: 0 <= i <= |str| && Matches(Tokens(p[1..]), str[i..])
    ensures |p| == 1 ==> Matches(Tokens(p), str)
  {
    hide Matches;
    StarTries(Tokens(p[1..]), str);
    if |p| == 1 {
      assert Tokens(p) == [Star];
      LastStar(str);
    }
  }

  /** A pattern with a class that does not end matches nothing. */
  lemma BrokenMatchesNothing(ts: seq<Token>, s: string)
    requires Broken in ts
    ensures !Meant(ts, s)
  {
    var i :| 0 <= i < |ts| && ts[i] == Broken;
    forall parts ensures !Splits(ts, parts, s) {
      if |parts| == |ts| { assert !Fits(ts[i], parts[i]); }
    }
  }

  /** `GlobMatch`: true exactly when the string has the form the pattern describes, which
      none has if a class in the pattern does not end. */
  method GlobMatch(pattern: string, s: string) returns (ok: bool)
    ensures ok <==> Meant(Tokens(pattern), s)
    ensures ok ==> Broken !in Tokens(pattern)
    decreases |pattern|
  {
    hide Meant, Matches, Tokens;
    if Broken in Tokens(pattern) { BrokenMatchesNothing(Tokens(pattern), s); }
    MatchesIsMeant(Tokens(pattern), s);
    var p, str := pattern, s;
    while |p| > 0
      invariant |p| <= |pattern| && (Matches(Tokens(p), str) <==> Matches(Tokens(pattern), s))
      decreases |p|
    {
      if p[0] == '*' {
        while |p| > 1 && p[1] == '*'
          invariant 0 < |p| <= |pattern| && p[0] == '*'
          invariant Matches(Tokens(p), str) <==> Matches(Tokens(pattern), s)
          decreases |p|
        {
          SkipStar(p, str);
          p := p[1..];
        }
        StarThen(p, str);
        if |p| == 1 { return true; }
        var i := 0;
        while i <= |str|
          invariant 0 <= i <= |str| + 1
          invariant forall k :: 0 <= k < i ==> !Matches(Tokens(p[1..]), str[k..])
        {
          var here := GlobMatch(p[1..], str[i..]);
          MatchesIsMeant(Tokens(p[1..]), str[i..]);
          if here { return true; }
          i := i + 1;
        }
        return false;
      }
      var more, rest := Step(p, str);
      if !more { return false; }
      p, str := rest, str[1..];
    }
    EmptyTokens(str);
    return |str| == 0;
  }

  // ---------------------------------------------------------------- facts about patterns

  /** Two stars in a row mean what one means, anywhere in a pattern. */
  lemma {:induction false} StarsCollapse(before: seq<Token>, rest: seq<Token>, s: string)
    ensures Matches(before + [Star, Star] + rest, s) <==> Matches(before + [Star] + rest, s)
    decreases |before|
  {
    hide Fits;
    var two, one := before + [Star, Star] + rest, before + [Star] + rest;
    if before == [] {
      assert two == [Star] + ([Star] + rest) && one == [Star] + rest;
      DoubleStar(rest, s);
    } else {
      assert two[1..] == before[1..] + [Star, Star] + rest && one[1..] == before[1..] + [Star] + rest;
      forall i | 0 <= i <= |s| ensures Matches(two[1..], s[i..]) <==> Matches(one[1..], s[i..]) {
        StarsCollapse(before[1..], rest, s[i..]);
      }
      assert two[0] == one[0];
    }
  }

  // ----------------------------------------------------------- patterns, from their text

  predicate Special(c: char) {
    c == '*' || c == '?' || c == '[' || c == '\\'
  }

  /** A character that is not special stands for itself, and a backslash makes any character
      do so; a lone one at the end stands for itself too. */
  lemma PlainCharacters(c: char, rest: string)
    ensures !Special(c) ==> Tokens([c] + rest) == [Literal(c)] + Tokens(rest)
    ensures Tokens(['\\', c] + rest) == [Literal(c)] + Tokens(rest)
    ensures Tokens(['\\']) == [Literal('\\')]
    ensures Tokens(['*'] + rest) == [Star] + Tokens(rest) && Tokens(['?'] + rest) == [Any] + Tokens(rest)
  {
    assert ([c] + rest)[1..] == rest && (['\\', c] + rest)[2..] == rest;
    assert (['*'] + rest)[1..] == rest && (['?'] + rest)[1..] == rest;
    assert ['\\'][1..] == [];
  }

  /** One way to write the items of a class: characters escaped, ranges as they are. */
  function ItemText(it: ClassItem): string {
    match it case One(c) => ['\\', c] case Range(a, b) => [a, '-', b]
  }

  function ItemsText(items: seq<ClassItem>): string {
    if items == [] then [] else ItemText(items[0]) + ItemsText(items[1..])
  }

  /** A range that can be written as it is. */
  predicate Writable(it: ClassItem) {
    it.Range? ==> it.a != '\\' && it.a != ']'
  }

  predicate AllWritable(items: seq<ClassItem>) {
    forall i :: 0 <= i < |items| ==> Writable(items[i])
  }

  lemma {:induction false} ItemsRoundTrip(items: seq<ClassItem>, rest: string, acc: seq<ClassItem>)
    requires AllWritable(items)
    ensures ParseClass(ItemsText(items) + ([']'] + rest), acc) == Some((acc + items, rest))
    decreases |items|
  {
    var tail := [']'] + rest;
    if items == [] {
      assert [] + tail == tail && tail[1..] == rest && acc + items == acc;
    } else {
      var it, more := items[0], items[1..];
      assert forall i :: 0 <= i < |more| ==> more[i] == items[i + 1];
      var p, q := ItemsText(items) + tail, ItemsText(more) + tail;
      assert p == ItemText(it) + q;
      assert Writable(it);
      assert |q| >= 1;
      assert p[|ItemText(it)|..] == q;
      ItemsRoundTrip(more, rest, acc + [it]);
      assert acc + [it] + more == acc + items;
    }
  }

  /** The text of a class, with its sign. */
  function ClassText(negated: bool, items: seq<ClassItem>): string {
    ['['] + (if negated then ['^'] else []) + ItemsText(items) + [']']
  }

  /** A class reads back as the class that was written, whatever follows. */
  lemma ClassRoundTrip(negated: bool, items: seq<ClassItem>, rest: string)
    requires AllWritable(items) && (!negated && items != [] && items[0].Range? ==> items[0].a != '^')
    ensures Tokens(ClassText(negated, items) + rest) == [Class(negated, items)] + Tokens(rest)
  {
    hide ParseClass, AllWritable;
    var sign: string := if negated then ['^'] else [];
    var body := ItemsText(items) + ([']'] + rest);
    var p := ClassText(negated, items) + rest;
    assert p == ['['] + (sign + body);
    assert p[1..] == sign + body;
    if negated {
      assert (sign + body)[1..] == body;
    } else {
      assert sign + body == body;
      if items != [] { assert body[0] == ItemText(items[0])[0]; }
      assert body[0] != '^';
    }
    assert AfterSign(p[1..]) == body && Negated(p[1..]) == negated;
    ItemsRoundTrip(items, rest, []);
    assert [] + items == items;
  }

  /** A class stands for one character: one that is listed or lies in a range, whichever end
      of the range is written first; and with the sign for one that does not. */
  lemma ClassMeans(a: char, b: char, c: char, x: char, negated: bool)
    ensures Meant([Class(negated, [Range(a, b), One(c)])], [x]) <==>
            (if negated then !(a <= x <= b || b <= x <= a || x == c) else a <= x <= b || b <= x <= a || x == c)
  {
    var items := [Range(a, b), One(c)];
    MatchesIsMeant([Class(negated, items)], [x]);
    assert [Class(negated, items)] == [Class(negated, items)] + [];
    ConsumeOne(Class(negated, items), [], [x]);
    assert [x][1..] == [] && [x][..1] == [x];
    assert InItems(items, x) <==> InItem(items[0], x) || InItem(items[1], x);
  }
}
