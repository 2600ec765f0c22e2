/**
 The option tails of SET and EXPIRE, from the text of the command (lib/commands/strings.go
 `parseSetOptions`, `cmdSet`; lib/commands/keys.go `parseExpireFlags`, `expireCommon`):
 which combinations are accepted, in any order, spelling and repetition, and what an
 accepted one means for the key and the reply.
 */
module OptionLaws {
  import opened Basics
  import opened Decimal
  import opened Commands

  // ---------------------------------------------------------------------- SET, as text

  /** One option as the client wrote it. */
  datatype SetOption = Flag(word: string) | Timed(word: string, number: string)

  predicate IsFlagWord(w: Word) {
    w == NX || w == XX || w == WGET || w == KEEPTTL
  }

  /** The option words, and that letter case does not matter. */
  lemma OptionWords(s: string)
    ensures var w := Lower(s);
            && (WordOf(s) == NX <==> w == "nx") && (WordOf(s) == XX <==> w == "xx")
            && (WordOf(s) == GT <==> w == "gt") && (WordOf(s) == LT <==> w == "lt")
            && (WordOf(s) == WGET <==> w == "get") && (WordOf(s) == KEEPTTL <==> w == "keepttl")
            && (WordOf(s) == Time(Ex) <==> w == "ex") && (WordOf(s) == Time(Px) <==> w == "px")
            && (WordOf(s) == Time(ExAt) <==> w == "exat") && (WordOf(s) == Time(PxAt) <==> w == "pxat")
            && (WordOf(s) == WPERSIST <==> w == "persist")
            && (WordOf(s) == LEFT <==> w == "left") && (WordOf(s) == RIGHT <==> w == "right")
  {
    hide Lower;
  }

  lemma LetterCase(s: string, t: string)
    requires |s| == |t| && forall i :: 0 <= i < |s| ==> SameLetter(s[i], t[i])
    ensures WordOf(s) == WordOf(t)
    ensures (forall i :: 0 <= i < |t| ==> !('A' <= t[i] <= 'Z')) ==> Lower(s) == t
  {
    assert Lower(s) == Lower(t);
    if forall i :: 0 <= i < |t| ==> !('A' <= t[i] <= 'Z') { assert Lower(t) == t; }
  }

  /** The same character, or the same letter in the other case. */
  predicate SameLetter(a: char, b: char) {
    a == b || ('A' <= a <= 'Z' && b as int == a as int + 32) || ('A' <= b <= 'Z' && a as int == b as int + 32)
  }

  /** A known flag, or EX, PX, EXAT or PXAT with a positive number. */
  predicate Known(o: SetOption) {
    match o
    case Flag(w) => IsFlagWord(WordOf(w))
    case Timed(w, n) => WordOf(w).Time? && ParseInt64(n).Some? && ParseInt64(n).value > 0
  }

  predicate AllKnown(os: seq<SetOption>) {
    forall i :: 0 <= i < |os| ==> Known(os[i])
  }

  function Words(o: SetOption): (ws: seq<string>)
    ensures 1 <= |ws| <= 2
  {
    match o case Flag(w) => [w] case Timed(w, n) => [w, n]
  }

  function Spelled(os: seq<SetOption>): seq<string> {
    if os == [] then [] else Words(os[0]) + Spelled(os[1..])
  }

  predicate IsFlag(o: SetOption, w: Word) {
    o.Flag? && WordOf(o.word) == w
  }

  predicate Has(os: seq<SetOption>, w: Word) {
    exists i :: 0 <= i < |os| && IsFlag(os[i], w)
  }

  predicate HasTime(os: seq<SetOption>) {
    exists i :: 0 <= i < |os| && os[i].Timed?
  }

  predicate HasUnit(o: SetOption, u: Unit) {
    o.Timed? && WordOf(o.word) == Time(u)
  }

  /** Every expire option has this unit. */
  predicate OnlyUnit(os: seq<SetOption>, u: Unit) {
    forall i :: 0 <= i < |os| && os[i].Timed? ==> HasUnit(os[i], u)
  }

  ghost predicate OneUnit(os: seq<SetOption>) {
    exists u :: OnlyUnit(os, u)
  }

  /** The combinations SET accepts: not both NX and XX, no expire option beside KEEPTTL,
      and no two different expire options. */
  ghost predicate Compatible(os: seq<SetOption>) {
    !(Has(os, NX) && Has(os, XX)) && !(Has(os, KEEPTTL) && HasTime(os)) && OneUnit(os)
  }

  /** The same, after the options in o. */
  ghost predicate Joins(o: SetOptions, os: seq<SetOption>) {
    && !((o.nx || Has(os, NX)) && (o.xx || Has(os, XX)))
    && !((o.keepttl || Has(os, KEEPTTL)) && (o.unit.Some? || HasTime(os)))
    && (if o.unit.Some? then OnlyUnit(os, o.unit.value) else OneUnit(os))
  }

  /** The number of the last expire option, if there is one. */
  function LastTime(os: seq<SetOption>): Option<(Unit, int)>
    requires AllKnown(os)
  {
    if os == [] then None
    else
      var last := os[|os| - 1];
      assert Known(last);
      if last.Timed? then Some((WordOf(last.word).u, ParseInt64(last.number).value))
      else LastTime(os[..|os| - 1])
  }

  /** What the parser has recorded. */
  predicate Recorded(o: SetOptions, os: seq<SetOption>, r: SetOptions)
    requires AllKnown(os)
  {
    && r.nx == (o.nx || Has(os, NX)) && r.xx == (o.xx || Has(os, XX))
    && r.get == (o.get || Has(os, WGET)) && r.keepttl == (o.keepttl || Has(os, KEEPTTL))
    && match LastTime(os)
       case None => r.unit == o.unit && r.raw == o.raw
       case Some((u, n)) => r.unit == Some(u) && r.raw == n
  }

  lemma HasCons(os: seq<SetOption>, w: Word)
    requires os != []
    ensures Has(os, w) <==> IsFlag(os[0], w) || Has(os[1..], w)
  {
    hide IsFlag;
    if i :| 0 <= i < |os| && IsFlag(os[i], w) { if i > 0 { assert os[1..][i - 1] == os[i]; } }
    if i :| 0 <= i < |os[1..]| && IsFlag(os[1..][i], w) { assert os[i + 1] == os[1..][i]; }
  }

  lemma TimeCons(os: seq<SetOption>, u: Unit)
    requires os != []
    ensures HasTime(os) <==> os[0].Timed? || HasTime(os[1..])
    ensures OnlyUnit(os, u) <==> (os[0].Timed? ==> HasUnit(os[0], u)) && OnlyUnit(os[1..], u)
  {
    hide HasUnit;
    var rest := os[1..];
    assert forall i :: 0 <= i < |rest| ==> rest[i] == os[i + 1];
    if i :| 0 <= i < |os| && os[i].Timed? { if i > 0 { assert rest[i - 1] == os[i]; } }
    if OnlyUnit(rest, u) && (os[0].Timed? ==> HasUnit(os[0], u)) {
      forall i | 0 <= i < |os| && os[i].Timed? ensures HasUnit(os[i], u) {
        if i > 0 { assert rest[i - 1] == os[i]; }
      }
    }
  }

  lemma {:induction false} LastTimeCons(os: seq<SetOption>)
    requires os != [] && AllKnown(os)
    ensures AllKnown(os[1..]) && Known(os[0])
    ensures LastTime(os) ==
            if LastTime(os[1..]).Some? then LastTime(os[1..])
            else if os[0].Timed? then Some((WordOf(os[0].word).u, ParseInt64(os[0].number).value))
            else None
    decreases |os|
  {
    hide Known, WordOf, ParseInt64;
    assert forall i :: 0 <= i < |os[1..]| ==> os[1..][i] == os[i + 1];
    if |os| > 1 {
      var front := os[..|os| - 1];
      LastTimeCons(front);
      assert os[1..][..|os| - 2] == front[1..];
    } else {
      assert os[..0] == [];
    }
  }

  lemma HasNone(w: Word, u: Unit)
    ensures !Has([], w) && !HasTime([]) && OnlyUnit([], u)
  {
  }

  /** The parser accepts exactly the combinations that go together, whatever their order
      and repetition, and records them all; the last expire option counts. */
  lemma {:induction false} ParseMeans(os: seq<SetOption>, o: SetOptions)
    requires AllKnown(os) && Joins(o, [])
    ensures ParseSet(Spelled(os), o).Ok? <==> Joins(o, os)
    ensures ParseSet(Spelled(os), o).Ok? ==> Recorded(o, os, ParseSet(Spelled(os), o).value)
    ensures ParseSet(Spelled(os), o).Fail? ==> ParseSet(Spelled(os), o) == Fail(Syntax)
    decreases |os|
  {
    hide ParseSet, Joins, Recorded, Spelled, Admits, After;
    if os == [] {
      NothingMeans(o);
    } else {
      LastTimeCons(os);
      StepJoins(os, o);
      ParseStep(os, o);
      if Admits(o, os[0]) {
        var o' := After(o, os[0]);
        ParseMeans(os[1..], o');
        var r := ParseSet(Spelled(os[1..]), o');
        if r.Ok? { StepRecords(os, o, r.value); }
      }
    }
  }

  lemma ParseStep(os: seq<SetOption>, o: SetOptions)
    requires os != [] && Known(os[0])
    ensures ParseSet(Spelled(os), o) ==
            if Admits(o, os[0]) then ParseSet(Spelled(os[1..]), After(o, os[0])) else Fail(Syntax)
  {
    hide WordOf, ParseInt64;
    var t := Spelled(os);
    if os[0].Flag? {
      assert t[0] == os[0].word && t[1..] == Spelled(os[1..]);
    } else {
      assert t[0] == os[0].word && t[1] == os[0].number && t[2..] == Spelled(os[1..]);
    }
  }

  lemma StepRecords(os: seq<SetOption>, o: SetOptions, r: SetOptions)
    requires os != [] && AllKnown(os) && AllKnown(os[1..]) && Known(os[0])
    requires Recorded(After(o, os[0]), os[1..], r)
    ensures Recorded(o, os, r)
  {
    hide WordOf, ParseInt64, Has, LastTime;
    LastTimeCons(os);
    HasCons(os, NX);
    HasCons(os, XX);
    HasCons(os, WGET);
    HasCons(os, KEEPTTL);
  }

  /** The options after one more. */
  function After(o: SetOptions, one: SetOption): SetOptions
    requires Known(one)
  {
    match one
    case Flag(w) =>
      (match WordOf(w)
       case NX => o.(nx := true)
       case XX => o.(xx := true)
       case WGET => o.(get := true)
       case _ => o.(keepttl := true))
    case Timed(w, n) => o.(unit := Some(WordOf(w).u), raw := ParseInt64(n).value)
  }

  /** The parser goes on after this one. */
  predicate Admits(o: SetOptions, one: SetOption)
    requires Known(one)
  {
    match one
    case Flag(w) =>
      (match WordOf(w)
       case NX => !o.xx
       case XX => !o.nx
       case WGET => true
       case _ => o.unit.None?)
    case Timed(w, n) => !o.keepttl && (o.unit.None? || o.unit.value == WordOf(w).u)
  }

  lemma NothingMeans(o: SetOptions)
    requires Joins(o, [])
    ensures ParseSet(Spelled([]), o) == Ok(o) && Recorded(o, [], o)
  {
    assert !Has([], NX) && !Has([], XX) && !Has([], WGET) && !Has([], KEEPTTL);
  }

  /** Joining a list is admitting its head and joining the rest. */
  lemma StepJoins(os: seq<SetOption>, o: SetOptions)
    requires os != [] && Known(os[0]) && Joins(o, [])
    ensures Joins(o, os) <==> Admits(o, os[0]) && Joins(After(o, os[0]), os[1..])
    ensures Admits(o, os[0]) ==> Joins(After(o, os[0]), [])
    ensures forall w :: IsFlagWord(w) ==> (Has(os, w) <==> IsFlag(os[0], w) || Has(os[1..], w))
  {
    hide WordOf, ParseInt64, Has, HasTime, OnlyUnit, OneUnit;
    forall w | IsFlagWord(w) ensures Has(os, w) <==> IsFlag(os[0], w) || Has(os[1..], w) { HasCons(os, w); }
    forall w, u ensures !Has([], w) && !HasTime([]) && OnlyUnit([], u) { HasNone(w, u); }
    forall u: Unit ensures
      && (HasTime(os) <==> os[0].Timed? || HasTime(os[1..]))
      && (OnlyUnit(os, u) <==> (os[0].Timed? ==> HasUnit(os[0], u)) && OnlyUnit(os[1..], u))
    { TimeCons(os, u); }
    TimeCons(os, Ex);
    UnitChoice(os);
    UnitsOfNothing();
  }

  lemma UnitsOfNothing()
    ensures OneUnit([])
  {
    assert OnlyUnit([], Ex);
  }

  lemma UnitChoice(os: seq<SetOption>)
    requires os != [] && Known(os[0])
    ensures os[0].Flag? ==> (OneUnit(os) <==> OneUnit(os[1..]))
    ensures os[0].Timed? ==> (OneUnit(os) <==> OnlyUnit(os[1..], WordOf(os[0].word).u))
  {
    hide WordOf, ParseInt64, OnlyUnit;
    forall v: Unit ensures OnlyUnit(os, v) <==> (os[0].Timed? ==> HasUnit(os[0], v)) && OnlyUnit(os[1..], v) {
      TimeCons(os, v);
    }
    if OneUnit(os) { var v :| OnlyUnit(os, v); }
    if os[0].Timed? { assert OnlyUnit(os, WordOf(os[0].word).u) <==> OnlyUnit(os[1..], WordOf(os[0].word).u); }
    if OneUnit(os[1..]) && os[0].Flag? { var v :| OnlyUnit(os[1..], v); assert OnlyUnit(os, v); }
  }

  // ------------------------------------------------------------------- SET, its meaning

  /** NX finds no key, and XX finds one. */
  predicate Applies(os: seq<SetOption>, cur: Option<Item>) {
    (Has(os, NX) ==> cur.None?) && (Has(os, XX) ==> cur.Some?)
  }

  /** The deadline the options ask for: of the last expire option, the old one for
      KEEPTTL, or none. */
  function AskedDeadline(now: int, os: seq<SetOption>, cur: Option<Item>): Result<int, Error>
    requires AllKnown(os)
  {
    match LastTime(os)
    case Some((u, n)) => Resolve(now, u, n)
    case None => Ok(if Has(os, KEEPTTL) && cur.Some? then cur.value.at else 0)
  }

  lemma SetParsed(os: seq<SetOption>)
    requires AllKnown(os)
    ensures var r := ParseSet(Spelled(os), NO_OPTIONS);
            && (r.Ok? <==> Compatible(os)) && (r.Fail? ==> r == Fail(Syntax))
            && (r.Ok? ==> Recorded(NO_OPTIONS, os, r.value))
  {
    hide ParseSet, Has, HasTime, OneUnit, OnlyUnit, Recorded;
    HasNone(NX, Ex);
    HasNone(XX, Ex);
    HasNone(KEEPTTL, Ex);
    UnitsOfNothing();
    ParseMeans(os, NO_OPTIONS);
  }

  /** SET with any options, from its text.  Incompatible options and a deadline that does
      not fit are refused; GET is refused on a key of another type and otherwise answers
      with the old value; and if the conditions hold the key has the new value and the
      deadline asked for, or is gone if that has passed. */
  lemma SetFollowsItsText(now: int, v: string, os: seq<SetOption>, cur: Option<Item>)
    requires AllKnown(os)
    ensures var r := KeyStep(now, SET, [v] + Spelled(os), [], cur);
            var at := AskedDeadline(now, os, cur);
            if !Compatible(os) then r == (cur, Err(Syntax))
            else if at.Fail? then r == (cur, Err(at.error))
            else if Has(os, WGET) && !IsStr(cur) then r == (cur, Err(WrongType))
            else
              && r.0 == (if !Applies(os, cur) then cur
                         else if HasTime(os) && at.value <= now then None
                         else Some(Item(Str(v), at.value)))
              && r.1 == (if Has(os, WGET) then KeyStep(now, GET, [], [], cur).1
                         else if Applies(os, cur) then OK else Nil)
  {
    hide ParseSet, Has, Compatible, Spelled, Resolve, LastTime, HasTime;
    var args := [v] + Spelled(os);
    assert args[0] == v && args[1..] == Spelled(os);
    SetParsed(os);
    TimeIsLast(os);
    if Compatible(os) { KeepExcludesTime(os); }
  }

  lemma KeepExcludesTime(os: seq<SetOption>)
    requires Compatible(os)
    ensures !(Has(os, KEEPTTL) && HasTime(os))
  {
  }

  lemma {:induction false} TimeIsLast(os: seq<SetOption>)
    requires AllKnown(os)
    ensures HasTime(os) <==> LastTime(os).Some?
    decreases |os|
  {
    hide Known;
    if os != [] {
      LastTimeCons(os);
      TimeCons(os, Ex);
      TimeIsLast(os[1..]);
    }
  }

  // ------------------------------------------------------------ SET, every other text

  /** No option starts here: an unknown word, or an expire option whose number is missing,
      is no integer, or is not positive. */
  predicate Stops(rest: seq<string>) {
    && rest != [] && !IsFlagWord(WordOf(rest[0]))
    && (WordOf(rest[0]).Time? && |rest| >= 2 ==> ParseInt64(rest[1]).None? || ParseInt64(rest[1]).value <= 0)
  }

  /** Every text is a list of known options and then nothing, or something that is none. */
  lemma {:induction false} EveryTextSplits(tail: seq<string>) returns (os: seq<SetOption>, rest: seq<string>)
    ensures AllKnown(os) && tail == Spelled(os) + rest && (rest == [] || Stops(rest))
    decreases |tail|
  {
    hide WordOf, ParseInt64, Spelled, AllKnown, Known, IsFlagWord;
    if tail == [] || Stops(tail) {
      os, rest := [], tail;
      NothingSpelled(tail);
    } else {
      var one := FirstOption(tail);
      var more;
      more, rest := EveryTextSplits(tail[|Words(one)|..]);
      os := [one] + more;
      OptionFirst(one, more, tail, rest);
    }
  }

  lemma FirstOption(tail: seq<string>) returns (one: SetOption)
    requires tail != [] && !Stops(tail)
    ensures Known(one) && |Words(one)| <= |tail| && tail[..|Words(one)|] == Words(one)
  {
    hide WordOf, ParseInt64;
    one := if IsFlagWord(WordOf(tail[0])) then Flag(tail[0]) else Timed(tail[0], tail[1]);
  }

  lemma NothingSpelled(tail: seq<string>)
    ensures AllKnown([]) && tail == Spelled([]) + tail
  {
  }

  lemma OptionFirst(one: SetOption, more: seq<SetOption>, tail: seq<string>, rest: seq<string>)
    requires Known(one) && AllKnown(more) && |Words(one)| <= |tail| && tail[..|Words(one)|] == Words(one)
    requires tail[|Words(one)|..] == Spelled(more) + rest
    ensures AllKnown([one] + more) && tail == Spelled([one] + more) + rest
  {
    hide Known;
    var os := [one] + more;
    assert os[1..] == more;
    assert Spelled(os) == Words(one) + Spelled(more);
    assert tail == Words(one) + (Spelled(more) + rest);
  }

  lemma {:induction false} ParsePrefix(os: seq<SetOption>, rest: seq<string>, o: SetOptions)
    requires AllKnown(os)
    ensures var r := ParseSet(Spelled(os), o);
            ParseSet(Spelled(os) + rest, o) == if r.Ok? then ParseSet(rest, r.value) else Fail(Syntax)
    decreases |os|
  {
    hide ParseSet, Admits, After, Known;
    if os == [] {
      assert [] + rest == rest;
      NothingParsed(o);
    } else {
      var one, more := os[0], os[1..];
      assert forall i :: 0 <= i < |more| ==> more[i] == os[i + 1];
      assert Known(one);
      ParseStep(os, o);
      OneParsed(one, Spelled(more) + rest, o);
      assert Spelled(os) + rest == Words(one) + (Spelled(more) + rest);
      if Admits(o, one) { ParsePrefix(more, rest, After(o, one)); }
    }
  }

  lemma NothingParsed(o: SetOptions)
    ensures ParseSet([], o) == Ok(o)
  {
  }

  lemma OneParsed(one: SetOption, tail: seq<string>, o: SetOptions)
    requires Known(one)
    ensures ParseSet(Words(one) + tail, o) ==
            if Admits(o, one) then ParseSet(tail, After(o, one)) else Fail(Syntax)
  {
    hide WordOf, ParseInt64;
    match one
    case Flag(w) => assert ([w] + tail)[1..] == tail;
    case Timed(w, n) => assert ([w, n] + tail)[2..] == tail && ([w, n] + tail)[1] == n;
  }

  /** What is wrong with it, after options that go together: an expire option that is out
      of place, or has no number, is a syntax error before its number is looked at. */
  function Fault(os: seq<SetOption>, rest: seq<string>): Error
    requires AllKnown(os) && Stops(rest)
  {
    if !WordOf(rest[0]).Time? || |rest| < 2 || Has(os, KEEPTTL) then Syntax
    else if LastTime(os).Some? && LastTime(os).value.0 != WordOf(rest[0]).u then Syntax
    else if ParseInt64(rest[1]).None? then NotInt
    else InvalidExpire
  }

  /** SET with any other text is refused, and the key stays as it is. */
  lemma SetRefusesOtherText(now: int, v: string, os: seq<SetOption>, rest: seq<string>, cur: Option<Item>)
    requires AllKnown(os) && Stops(rest)
    ensures KeyStep(now, SET, [v] + (Spelled(os) + rest), [], cur) ==
            (cur, Err(if Compatible(os) then Fault(os, rest) else Syntax))
  {
    hide ParseSet, Has, Compatible, Spelled, Resolve, LastTime, WordOf, ParseInt64;
    var args := [v] + (Spelled(os) + rest);
    assert args[0] == v && args[1..] == Spelled(os) + rest;
    SetParsed(os);
    ParsePrefix(os, rest, NO_OPTIONS);
    if Compatible(os) {
      var o := ParseSet(Spelled(os), NO_OPTIONS).value;
      assert Recorded(NO_OPTIONS, os, o);
      StopsParsing(rest, o);
    }
  }

  lemma StopsParsing(rest: seq<string>, o: SetOptions)
    requires Stops(rest)
    ensures ParseSet(rest, o) == Fail(
              if !WordOf(rest[0]).Time? || |rest| < 2 || o.keepttl then Syntax
              else if o.unit.Some? && o.unit.value != WordOf(rest[0]).u then Syntax
              else if ParseInt64(rest[1]).None? then NotInt
              else InvalidExpire)
  {
    hide WordOf, ParseInt64;
  }

  // ------------------------------------------------------------------- EXPIRE, as text

  predicate IsExpireWord(w: Word) {
    w == NX || w == XX || w == GT || w == LT
  }

  predicate Says(words: seq<string>, w: Word) {
    exists i :: 0 <= i < |words| && WordOf(words[i]) == w
  }

  predicate AllExpireWords(words: seq<string>) {
    forall i :: 0 <= i < |words| ==> IsExpireWord(WordOf(words[i]))
  }

  lemma SaysCons(words: seq<string>, w: Word)
    requires words != []
    ensures Says(words, w) <==> WordOf(words[0]) == w || Says(words[1..], w)
  {
    hide WordOf;
    if i :| 0 <= i < |words| && WordOf(words[i]) == w { if i > 0 { assert words[1..][i - 1] == words[i]; } }
    if i :| 0 <= i < |words[1..]| && WordOf(words[1..][i]) == w { assert words[i + 1] == words[1..][i]; }
  }

  /** NX with nothing else, and not both GT and LT. */
  predicate FlagsJoin(f: Flags) {
    !(f.nx && (f.xx || f.gt || f.lt)) && !(f.gt && f.lt)
  }

  function Said(f: Flags, words: seq<string>): Flags {
    Flags(f.nx || Says(words, NX), f.xx || Says(words, XX), f.gt || Says(words, GT), f.lt || Says(words, LT))
  }

  lemma {:induction false} FlagsParsed(words: seq<string>, f: Flags)
    requires AllExpireWords(words) && FlagsJoin(f)
    ensures ParseFlags(words, f) == if FlagsJoin(Said(f, words)) then Ok(Said(f, words)) else Fail(Incompatible)
    decreases |words|
  {
    hide WordOf, Says;
    if words == [] {
      NothingSaid();
    } else {
      var rest := words[1..];
      assert forall i :: 0 <= i < |rest| ==> rest[i] == words[i + 1];
      SaysCons(words, NX);
      SaysCons(words, XX);
      SaysCons(words, GT);
      SaysCons(words, LT);
      var g := match WordOf(words[0])
               case NX => f.(nx := true)
               case XX => f.(xx := true)
               case GT => f.(gt := true)
               case _ => f.(lt := true);
      if FlagsJoin(g) { FlagsParsed(rest, g); }
    }
  }

  lemma NothingSaid()
    ensures !Says([], NX) && !Says([], XX) && !Says([], GT) && !Says([], LT)
  {
  }

  /** A word that is no flag is an error, whatever stands before it. */
  lemma {:induction false} OtherWordFails(words: seq<string>, f: Flags)
    requires !AllExpireWords(words)
    ensures ParseFlags(words, f).Fail?
    decreases |words|
  {
    hide WordOf;
    var rest := words[1..];
    if IsExpireWord(WordOf(words[0])) {
      var i :| 0 <= i < |words| && !IsExpireWord(WordOf(words[i]));
      assert rest[i - 1] == words[i];
      forall g { OtherWordFails(rest, g); }
    }
  }

  /** The moment the number asks for, in milliseconds and without bounds. */
  function AskedMoment(now: int, u: Unit, n: int): int {
    match u
    case Ex => now + n * 1000
    case Px => now + n
    case ExAt => n * 1000
    case PxAt => n
  }

  /** The moment that is stored: one that does not fit 64 bits becomes the last moment
      when it was given in seconds to come, and wraps around otherwise. */
  function StoredMoment(now: int, u: Unit, n: int): int {
    var asked := AskedMoment(now, u, n);
    if IsInt64(asked) then asked
    else if n > 0 && (u.Ex? || u.ExAt?) then MAX64
    else Wrap(asked)
  }

  lemma DeadlineIsStored(now: int, u: Unit, n: int)
    requires 0 <= now <= MAX64 && IsInt64(n)
    ensures Deadline(now, u, n) == StoredMoment(now, u, n)
  {
    match u
    case Ex => SecondsFit(MAX64 - now, n);
    case ExAt => SecondsFit(MAX64, n);
    case _ =>
  }

  /** The test for an overflow is exact. */
  lemma SecondsFit(room: int, n: int)
    requires room >= 0
    ensures n > room / 1000 <==> n * 1000 > room
  {
  }

  /** The flags allow the move from one deadline to another: NX finds none, XX finds one,
      GT finds an earlier one (none counts as infinite) and LT a later one or none. */
  predicate Allowed(words: seq<string>, was: int, at: int) {
    && (Says(words, NX) ==> was == 0) && (Says(words, XX) ==> was != 0)
    && (Says(words, GT) ==> was != 0 && was < at) && (Says(words, LT) ==> was == 0 || at < was)
  }

  predicate Exclude(words: seq<string>) {
    || (Says(words, NX) && (Says(words, XX) || Says(words, GT) || Says(words, LT)))
    || (Says(words, GT) && Says(words, LT))
  }

  /** EXPIRE, PEXPIRE, EXPIREAT and PEXPIREAT with any number, any words and on any key,
      from their text.  A text that is no integer is refused, and so are unknown words and
      flags that exclude each other; a key that is missing or that the flags protect stays
      as it is; and otherwise the key gets the deadline, or is gone if that has passed. */
  lemma ExpireFollowsItsText(now: int, verb: Verb, number: string, words: seq<string>, cur: Option<Item>)
    requires IsExpire(verb) && 0 <= now <= MAX64
    ensures var r := KeyStep(now, verb, [number] + words, [], cur);
            var n := ParseInt64(number);
            if n.None? then r == (cur, Err(NotInt))
            else if !AllExpireWords(words) then r.0 == cur && r.1.Err?
            else if Exclude(words) then r == (cur, Err(Incompatible))
            else
              var at := StoredMoment(now, ExpireUnit(verb), n.value);
              if cur.None? || !Allowed(words, cur.value.at, at) then r == (cur, Int(0))
              else r == (if at <= now then None else Some(cur.value.(at := at)), Int(1))
  {
    hide ParseInt64, ExpireKey, ParseFlags, AllExpireWords, Deadline, StoredMoment, Exclude, Allowed;
    var args := [number] + words;
    assert args[0] == number && args[1..] == words;
    ExpireVerb(now, verb, args, cur);
    var n := ParseInt64(number);
    if n.Some? {
      FlagsOfWords(words);
      if AllExpireWords(words) && !Exclude(words) {
        ParsedInt64(number);
        DeadlineIsStored(now, ExpireUnit(verb), n.value);
        KeyOfWords(now, words, Deadline(now, ExpireUnit(verb), n.value), cur);
      }
    }
  }

  const NO_FLAGS := Flags(false, false, false, false)

  lemma ExpireVerb(now: int, verb: Verb, args: seq<string>, cur: Option<Item>)
    requires IsExpire(verb)
    ensures KeyStep(now, verb, args, [], cur) == ExpireStep(now, ExpireUnit(verb), args, cur)
  {
    hide ExpireStep;
  }

  lemma FlagsOfWords(words: seq<string>)
    ensures var r := ParseFlags(words, NO_FLAGS);
            if !AllExpireWords(words) then r.Fail?
            else r == if Exclude(words) then Fail(Incompatible) else Ok(Said(NO_FLAGS, words))
  {
    hide ParseFlags, Says, AllExpireWords;
    if AllExpireWords(words) { FlagsParsed(words, NO_FLAGS); } else { OtherWordFails(words, NO_FLAGS); }
  }

  lemma KeyOfWords(now: int, words: seq<string>, at: int, cur: Option<Item>)
    ensures ExpireKey(now, Said(NO_FLAGS, words), at, cur) ==
            if cur.None? || !Allowed(words, cur.value.at, at) then (cur, Int(0))
            else (if at <= now then None else Some(cur.value.(at := at)), Int(1))
  {
    hide Says;
  }
}
