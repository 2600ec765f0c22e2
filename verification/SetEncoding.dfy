/**
 The set value as a value (lib/types/set.go): its members and which of the two encodings
 holds them.  While it is a set of integers, a text that parses as one stands for that
 integer; a text that does not, or a 513th integer, changes the encoding for good.  The
 second half is about reloading: a dump lists the members and a fresh set gets them back
 one by one.
 */
module SetEncoding {
  import opened Basics
  import opened Decimal

  const MAX_ENTRIES: nat := 512

  /** The member a text is taken for while the set holds integers. */
  function Canon(m: string): string {
    var n := ParseInt64(m);
    if n.None? then m else FormatInt(n.value)
  }

  /** The text is no integer, or exactly the print of the integer it parses as. */
  predicate Exact(m: string) {
    Canon(m) == m
  }

  /** The text is the print of an integer. */
  predicate IsPrint(m: string) {
    ParseInt64(m).Some? && Canon(m) == m
  }

  datatype Encoded = Encoded(isInt: bool, ms: set<string>)

  predicate Sound(e: Encoded) {
    e.isInt ==> |e.ms| <= MAX_ENTRIES && forall m :: m in e.ms ==> IsPrint(m)
  }

  type SetValue = e: Encoded | Sound(e) witness Encoded(true, {})

  const FRESH: SetValue := Encoded(true, {})

  /** A text is inexact precisely when it has 20 digits or more and still parses. */
  lemma ExactIff(m: string)
    ensures Exact(m) <==> ParseInt64(m).None? || |Body(m)| <= 19
  {
    hide FormatInt, ParseInt64;
    if ParseInt64(m).Some? {
      var n := ParseInt64(m).value;
      if |Body(m)| <= 19 {
        ParseIsExact(m, n);
      } else {
        ParsedInt64(m);
        LongStringsWrap(m);
      }
    }
  }

  /** Every text 2^64 + r is inexact: it is taken for r. */
  lemma WrappedIsInexact(r: nat)
    requires r < TWO63
    ensures Canon(Digits(r + TWO64)) == FormatInt(r) != Digits(r + TWO64)
  {
    hide ParseInt64, Digits;
    WrappedFamily(r);
    DigitsDiffer(r, r + TWO64);
  }

  lemma DigitsDiffer(a: nat, b: nat)
    requires a != b
    ensures FormatInt(a) != Digits(b)
  {
    ValueOfDigits(a);
    ValueOfDigits(b);
  }

  lemma FormatIsPrint(n: int)
    requires IsInt64(n)
    ensures IsPrint(FormatInt(n))
  {
    hide FormatInt, ParseInt64;
    ParseOfFormat(n);
  }

  lemma CanonIsPrint(m: string)
    requires ParseInt64(m).Some?
    ensures IsPrint(Canon(m))
  {
    hide FormatInt, ParseInt64;
    ParsedInt64(m);
    FormatIsPrint(ParseInt64(m).value);
  }

  // ----------------------------------------------------------------------- operations

  /** The set goes on holding integers when m is added. */
  predicate StaysInt(e: SetValue, m: string) {
    e.isInt && ParseInt64(m).Some? && (Canon(m) in e.ms || |e.ms| < MAX_ENTRIES)
  }

  /** The member that adding m adds. */
  function Taken(e: SetValue, m: string): string {
    if StaysInt(e, m) then Canon(m) else m
  }

  function AddOne(e: SetValue, m: string): (r: SetValue)
    ensures r == Encoded(StaysInt(e, m), e.ms + {Taken(e, m)})
  {
    AddStaysSound(e, m);
    Encoded(StaysInt(e, m), e.ms + {Taken(e, m)})
  }

  lemma AddStaysSound(e: SetValue, m: string)
    ensures Sound(Encoded(StaysInt(e, m), e.ms + {Taken(e, m)}))
  {
    hide ParseInt64, FormatInt, IsPrint;
    if StaysInt(e, m) {
      CanonIsPrint(m);
      assert Canon(m) in e.ms ==> e.ms + {Canon(m)} == e.ms;
    }
  }

  /** The member that removing or asking for m means. */
  function Meant(e: SetValue, m: string): string {
    if e.isInt then Canon(m) else m
  }

  function RemoveOne(e: SetValue, m: string): (r: SetValue)
    ensures r == Encoded(e.isInt, e.ms - {Meant(e, m)})
  {
    RemoveStaysSound(e, {Meant(e, m)});
    Encoded(e.isInt, e.ms - {Meant(e, m)})
  }

  lemma RemoveStaysSound(e: SetValue, gone: set<string>)
    ensures Sound(Encoded(e.isInt, e.ms - gone))
  {
    hide IsPrint;
    Smaller(e.ms, gone);
  }

  lemma Smaller(a: set<string>, b: set<string>)
    ensures |a - b| <= |a|
  {
    assert a == (a - b) + (a * b);
  }

  function AddAll(e: SetValue, ms: seq<string>): SetValue
    decreases |ms|
  {
    if ms == [] then e else AddAll(AddOne(e, ms[0]), ms[1..])
  }

  function RemoveAll(e: SetValue, ms: seq<string>): SetValue
    decreases |ms|
  {
    if ms == [] then e else RemoveAll(RemoveOne(e, ms[0]), ms[1..])
  }

  function ToSet(xs: seq<string>): set<string> {
    set x | x in xs
  }

  lemma ToSetCons(xs: seq<string>)
    requires xs != []
    ensures ToSet(xs) == {xs[0]} + ToSet(xs[1..])
  {
    assert xs == [xs[0]] + xs[1..];
  }

  lemma ToSetSnoc(order: seq<string>)
    requires order != []
    ensures ToSet(order) == ToSet(order[..|order| - 1]) + {order[|order| - 1]}
  {
    assert order == order[..|order| - 1] + [order[|order| - 1]];
  }

  predicate AllExact(xs: seq<string>) {
    forall i :: 0 <= i < |xs| ==> Exact(xs[i])
  }

  /** Exact members, or any members of a set that no longer holds integers, are added as
      they are. */
  lemma {:induction false} AddAllExact(e: SetValue, ms: seq<string>)
    requires AllExact(ms) || !e.isInt
    ensures AddAll(e, ms).ms == e.ms + ToSet(ms)
    decreases |ms|
  {
    hide Exact, StaysInt;
    if ms != [] {
      ToSetCons(ms);
      ExactIsTaken(e, ms[0]);
      assert AllExact(ms) ==> AllExact(ms[1..]);
      AddAllExact(AddOne(e, ms[0]), ms[1..]);
    }
  }

  lemma {:induction false} AddAllGrows(e: SetValue, ms: seq<string>)
    ensures e.ms <= AddAll(e, ms).ms && (ms != [] ==> AddAll(e, ms).ms != {})
    decreases |ms|
  {
    hide StaysInt, Taken;
    if ms != [] {
      AddAllGrows(AddOne(e, ms[0]), ms[1..]);
      assert Taken(e, ms[0]) in AddAll(e, ms).ms;
    }
  }

  lemma {:induction false} RemoveAllShrinks(e: SetValue, ms: seq<string>)
    ensures RemoveAll(e, ms).ms <= e.ms
    decreases |ms|
  {
    hide Meant;
    if ms != [] { RemoveAllShrinks(RemoveOne(e, ms[0]), ms[1..]); }
  }

  lemma ExactIsTaken(e: SetValue, m: string)
    ensures Exact(m) || !e.isInt ==> Taken(e, m) == m
    ensures !e.isInt ==> !StaysInt(e, m)
  {
  }

  lemma {:induction false} RemoveAllPlain(e: SetValue, ms: seq<string>)
    requires AllExact(ms) || !e.isInt
    ensures RemoveAll(e, ms) == Encoded(e.isInt, e.ms - ToSet(ms))
    decreases |ms|
  {
    hide Exact;
    if ms == [] {
      assert e.ms - ToSet(ms) == e.ms;
    } else {
      var m, tail := ms[0], ms[1..];
      ToSetCons(ms);
      assert AllExact(ms) ==> AllExact(tail) && Exact(m);
      MeansItself(e, m);
      RemoveAllPlain(RemoveOne(e, m), tail);
      assert e.ms - {m} - ToSet(tail) == e.ms - ({m} + ToSet(tail));
    }
  }

  lemma MeansItself(e: SetValue, m: string)
    requires Exact(m) || !e.isInt
    ensures Meant(e, m) == m
  {
  }

  /** Removing members that are there, or exact texts, removes exactly those. */
  lemma RemoveAllExact(e: SetValue, ms: seq<string>)
    requires AllExact(ms) || !e.isInt || ToSet(ms) <= e.ms
    ensures RemoveAll(e, ms) == Encoded(e.isInt, e.ms - ToSet(ms))
  {
    hide RemoveAll, Exact;
    if e.isInt && ToSet(ms) <= e.ms { MembersAreExact(e, ms); }
    RemoveAllPlain(e, ms);
  }

  lemma MembersAreExact(e: SetValue, ms: seq<string>)
    requires e.isInt && ToSet(ms) <= e.ms
    ensures AllExact(ms)
  {
    hide ParseInt64, FormatInt;
    forall i | 0 <= i < |ms| ensures Exact(ms[i]) {
      assert ms[i] in ToSet(ms);
    }
  }

  /** The integers that texts stand for. */
  function Canons(xs: seq<string>): set<string> {
    set x | x in xs :: Canon(x)
  }

  lemma CanonsCons(xs: seq<string>)
    requires xs != []
    ensures Canons(xs) == {Canon(xs[0])} + Canons(xs[1..])
  {
    hide Canon;
    assert xs == [xs[0]] + xs[1..];
  }

  /** The members that adding the texts one after the other adds. */
  function Takens(e: SetValue, ms: seq<string>): set<string>
    decreases |ms|
  {
    if ms == [] then {} else {Taken(e, ms[0])} + Takens(AddOne(e, ms[0]), ms[1..])
  }

  lemma {:induction false} AddAllTakes(e: SetValue, ms: seq<string>)
    ensures AddAll(e, ms).ms == e.ms + Takens(e, ms)
    ensures AddAll(e, ms).isInt ==> e.isInt && Takens(e, ms) == Canons(ms)
    decreases |ms|
  {
    hide Canon, ParseInt64, Canons;
    if ms == [] {
      NoCanons(ms);
    } else {
      CanonsCons(ms);
      AddAllTakes(AddOne(e, ms[0]), ms[1..]);
    }
  }

  /** What removing the texts removes: the integers they stand for, or the texts. */
  function MeantAll(e: SetValue, ms: seq<string>): set<string> {
    if e.isInt then Canons(ms) else ToSet(ms)
  }

  lemma {:induction false} RemoveAllMeans(e: SetValue, ms: seq<string>)
    ensures RemoveAll(e, ms).ms == e.ms - MeantAll(e, ms)
    decreases |ms|
  {
    hide Canon, Canons, ToSet;
    if ms == [] {
      NoCanons(ms);
      NothingListed();
    } else {
      CanonsCons(ms);
      ToSetCons(ms);
      RemoveAllMeans(RemoveOne(e, ms[0]), ms[1..]);
      assert e.ms - {Meant(e, ms[0])} - MeantAll(e, ms[1..]) == e.ms - ({Meant(e, ms[0])} + MeantAll(e, ms[1..]));
    }
  }

  /** Removing texts after adding them gives the members back there were: exactly when
      none that they mean was there, and, if the set no longer holds integers, each member
      that came of them is one of them or was there. */
  predicate Undoes(e: SetValue, ms: seq<string>) {
    if AddAll(e, ms).isInt then Canons(ms) !! e.ms
    else ToSet(ms) !! e.ms && Takens(e, ms) <= e.ms + ToSet(ms)
  }

  lemma RemoveUndoesAddIff(e: SetValue, ms: seq<string>)
    ensures RemoveAll(AddAll(e, ms), ms).ms == e.ms <==> Undoes(e, ms)
  {
    hide AddAll, RemoveAll, Canons, ToSet, Takens;
    AddAllTakes(e, ms);
    RemoveAllMeans(AddAll(e, ms), ms);
    UndoIff(e.ms, Takens(e, ms), MeantAll(AddAll(e, ms), ms));
  }

  lemma UndoIff(was: set<string>, got: set<string>, gone: set<string>)
    ensures (was + got) - gone == was <==> gone !! was && got <= was + gone
  {
    if gone !! was && got <= was + gone { assert (was + got) - gone == was; }
    if (was + got) - gone == was {
      forall x | x in got ensures x in was + gone { assert x in was + got; }
    }
  }

  // ------------------------------------------------------------------------ reloading

  /** A fresh set after the members have been added in this order. */
  function Reload(order: seq<string>): SetValue {
    AddAll(FRESH, order)
  }

  lemma {:induction false} AddAllSnoc(e: SetValue, ms: seq<string>, m: string)
    ensures AddAll(e, ms + [m]) == AddOne(AddAll(e, ms), m)
    decreases |ms|
  {
    if ms == [] {
      assert ms + [m] == [m];
    } else {
      assert (ms + [m])[1..] == ms[1..] + [m];
      AddAllSnoc(AddOne(e, ms[0]), ms[1..], m);
    }
  }

  lemma ReloadStep(order: seq<string>, i: nat)
    requires i < |order|
    ensures Reload(order[..i + 1]) == AddOne(Reload(order[..i]), order[i])
  {
    assert order[..i + 1] == order[..i] + [order[i]];
    AddAllSnoc(FRESH, order[..i], order[i]);
  }

  predicate NoRepeats(xs: seq<string>) {
    forall i, j :: 0 <= i < j < |xs| ==> xs[i] != xs[j]
  }

  /** Every inexact member comes when the set no longer holds integers. */
  predicate ReloadsWell(order: seq<string>) {
    forall i :: 0 <= i < |order| ==> Exact(order[i]) || !Reload(order[..i + 1]).isInt
  }

  lemma {:induction false} WellReloaded(order: seq<string>, i: nat)
    requires ReloadsWell(order) && i <= |order|
    ensures Reload(order[..i]).ms == ToSet(order[..i])
    decreases i
  {
    hide Exact, StaysInt;
    if i > 0 {
      WellReloaded(order, i - 1);
      ReloadStep(order, i - 1);
      var e, m := Reload(order[..i - 1]), order[i - 1];
      assert Taken(e, m) == m by { ExactIsTaken(e, m); }
      ToSetSnoc(order[..i]);
      assert order[..i][..i - 1] == order[..i - 1];
    }
  }

  /** An inexact text that met a set of integers is no member, then or later. */
  lemma {:induction false} StaysLost(order: seq<string>, i: nat, k: nat)
    requires NoRepeats(order) && i < k <= |order|
    requires !Exact(order[i]) && Reload(order[..i + 1]).isInt
    ensures order[i] !in Reload(order[..k]).ms
    decreases k
  {
    hide Exact, StaysInt, IsPrint;
    var m := order[i];
    if k == i + 1 {
      InexactIsNoPrint(m);
    } else {
      StaysLost(order, i, k - 1);
      ReloadStep(order, k - 1);
      OtherIsTaken(Reload(order[..k - 1]), order[k - 1], m);
    }
  }

  lemma InexactIsNoPrint(m: string)
    requires !Exact(m)
    ensures !IsPrint(m)
  {
  }

  lemma OtherIsTaken(e: SetValue, x: string, m: string)
    requires !Exact(m) && x != m
    ensures Taken(e, x) != m
  {
    hide ParseInt64, FormatInt;
    if ParseInt64(x).Some? { CanonIsPrint(x); }
  }

  /** The exact condition for one order: the fresh set has the listed members if and only
      if every inexact one comes when the set no longer holds integers. */
  lemma ReloadIsExact(order: seq<string>)
    requires NoRepeats(order)
    ensures Reload(order).ms == ToSet(order) <==> ReloadsWell(order)
  {
    hide Exact, Reload;
    assert order[..|order|] == order;
    if ReloadsWell(order) {
      WellReloaded(order, |order|);
    } else {
      var i :| 0 <= i < |order| && !Exact(order[i]) && Reload(order[..i + 1]).isInt;
      StaysLost(order, i, |order|);
      assert order[i] in ToSet(order);
    }
  }

  /** The member at j ends the integer encoding: it is no integer, or a new one after 512
      others. */
  predicate Promotes(order: seq<string>, j: nat)
    requires j < |order|
  {
    || ParseInt64(order[j]).None?
    || (Canon(order[j]) !in Canons(order[..j]) && |Canons(order[..j])| >= 512)
  }

  lemma CanonsSnoc(order: seq<string>, i: nat)
    requires i < |order|
    ensures Canons(order[..i + 1]) == Canons(order[..i]) + {Canon(order[i])}
  {
    hide Canon;
    assert order[..i + 1] == order[..i] + [order[i]];
  }

  /** When that is, from the list alone: the set still holds integers after i members if
      and only if none of them promoted it. */
  lemma {:induction false} StillIntegers(order: seq<string>, i: nat)
    requires i <= |order|
    ensures Reload(order[..i]).isInt <==> forall j :: 0 <= j < i ==> !Promotes(order, j)
    ensures Reload(order[..i]).isInt ==> Reload(order[..i]).ms == Canons(order[..i])
    decreases i
  {
    hide Canon, ParseInt64, Canons;
    if i == 0 {
      NoCanons(order[..0]);
    } else {
      StillIntegers(order, i - 1);
      ReloadStep(order, i - 1);
      CanonsSnoc(order, i - 1);
      NoneSoFar(order, i - 1);
      var e, m := Reload(order[..i - 1]), order[i - 1];
      assert StaysInt(e, m) <==> e.isInt && !Promotes(order, i - 1);
    }
  }

  lemma NoneSoFar(order: seq<string>, i: nat)
    requires i < |order|
    ensures (forall j :: 0 <= j < i + 1 ==> !Promotes(order, j)) <==>
            (forall j :: 0 <= j < i ==> !Promotes(order, j)) && !Promotes(order, i)
  {
    hide Promotes;
  }

  lemma NoCanons(xs: seq<string>)
    requires xs == []
    ensures Canons(xs) == {} && Reload(xs) == FRESH
  {
  }

  ghost predicate Lists(order: seq<string>, ms: set<string>) {
    NoRepeats(order) && ToSet(order) == ms
  }

  lemma NothingListed()
    ensures NoRepeats([]) && ToSet([]) == {}
  {
  }

  lemma ListCons(m: string, tail: seq<string>)
    requires NoRepeats(tail) && m !in ToSet(tail)
    ensures NoRepeats([m] + tail) && ToSet([m] + tail) == {m} + ToSet(tail)
  {
    var order := [m] + tail;
    assert order[1..] == tail;
    ToSetCons(order);
    forall i, j | 0 <= i < j < |order| ensures order[i] != order[j] {
      assert order[j] == tail[j - 1];
      if i == 0 { assert tail[j - 1] in ToSet(tail); } else { assert order[i] == tail[i - 1]; }
    }
  }

  /** Any member of a finite set can come first in a list of it. */
  lemma {:induction false} ListFrom(m: string, ms: set<string>) returns (order: seq<string>)
    requires m in ms
    ensures Lists(order, ms) && order != [] && order[0] == m
    decreases |ms|
  {
    hide NoRepeats, ToSet;
    var rest := ms - {m};
    if rest == {} {
      order := [m] + [];
      NothingListed();
      ListCons(m, []);
      assert ms == {m} + {};
    } else {
      var x :| x in rest;
      var tail := ListFrom(x, rest);
      order := [m] + tail;
      ListCons(m, tail);
      assert {m} + rest == ms;
    }
  }

  /** The exact condition for a set: it comes back whatever the order of its members, as
      the order of a map's members is random, if and only if every member is exact. */
  lemma EveryOrderIff(ms: set<string>)
    ensures (forall order :: Lists(order, ms) ==> Reload(order).ms == ms) <==> (forall m :: m in ms ==> Exact(m))
  {
    hide Exact, Reload, NoRepeats;
    if forall m :: m in ms ==> Exact(m) {
      forall order | Lists(order, ms) ensures Reload(order).ms == ms {
        ReloadsOfExact(order);
        ReloadIsExact(order);
      }
    } else {
      var m :| m in ms && !Exact(m);
      var order := ListFrom(m, ms);
      FirstIsLost(order);
      ReloadIsExact(order);
    }
  }

  lemma ReloadsOfExact(order: seq<string>)
    requires forall m :: m in ToSet(order) ==> Exact(m)
    ensures ReloadsWell(order) && AllExact(order)
  {
    hide Exact, Reload;
    forall i | 0 <= i < |order| ensures Exact(order[i]) { assert order[i] in ToSet(order); }
  }

  lemma FirstIsLost(order: seq<string>)
    requires order != [] && !Exact(order[0])
    ensures !ReloadsWell(order)
  {
    hide FormatInt, ParseInt64;
    ReloadStep(order, 0);
    assert order[..0] == [];
    assert Reload([]) == FRESH;
    assert Reload(order[..0 + 1]).isInt;
  }
}
