/**
 The entry records of a snapshot (lib/persist/format.go): little-endian integers, counted
 strings, and a decoder that latches its first error.  Characters stand for bytes, and a
 score for its 64-bit pattern.
 */
module SnapshotFormat {
  import opened Basics
  import opened Decimal
  import opened SetEncoding
  import opened Commands
  import opened Resp
  import opened AofRewrite
  import IntSet

  const TWO32: int := 0x1_0000_0000

  // ------------------------------------------------------------------------ encoding

  /** The k low bytes of n, least significant first. */
  function LittleEndian(n: nat, k: nat): (s: string)
    ensures |s| == k
  {
    if k == 0 then [] else [(n % 256) as char] + LittleEndian(n / 256, k - 1)
  }

  function U32(n: nat): string { LittleEndian(n, 4) }

  function U64(n: nat): string { LittleEndian(n, 8) }

  /** An int64 as the uint64 with its bits. */
  function Unsigned(n: int): nat
    requires IsInt64(n)
  {
    if n < 0 then n + TWO64 else n
  }

  function Signed(u: nat): int {
    if u >= TWO63 then u - TWO64 else u
  }

  function Counted(s: string): string { U32(|s|) + s }

  function CountedAll(xs: seq<string>): string {
    if xs == [] then [] else Counted(xs[0]) + CountedAll(xs[1..])
  }

  /** A hash as field, value, field, value. */
  function Fields(fs: map<string, string>, order: seq<string>): string
    requires ToSet(order) <= fs.Keys
  {
    if order == [] then []
    else
      ToSetCons(order);
      Counted(order[0]) + (Counted(fs[order[0]]) + Fields(fs, order[1..]))
  }

  predicate GoodScores(zs: map<string, int>) {
    forall m :: m in zs ==> IsInt64(zs[m])
  }

  function Scored(zs: map<string, int>, order: seq<string>): string
    requires ToSet(order) <= zs.Keys && GoodScores(zs)
  {
    if order == [] then []
    else
      ToSetCons(order);
      Counted(order[0]) + (U64(Unsigned(zs[order[0]])) + Scored(zs, order[1..]))
  }

  const TAG_STRING: char := 0 as char
  const TAG_LIST: char := 1 as char
  const TAG_SET: char := 2 as char
  const TAG_ZSET: char := 3 as char
  const TAG_HASH: char := 4 as char

  predicate SmallAll(xs: seq<string>) {
    |xs| < TWO32 && forall i :: 0 <= i < |xs| ==> |xs[i]| < TWO32
  }

  /** Lengths below 2^32, scores and deadlines of 64 bits, members walked over once. */
  predicate Small(d: Dumped) {
    && |d.slot.key| < TWO32 && IsInt64(d.item.at)
    && Ordered(d) && SmallAll(d.order)
    && match d.item.value
       case Str(s) => |s| < TWO32
       case List(xs) => SmallAll(xs)
       case Set(_) => true
       case Hash(fs) => forall f :: f in fs ==> |fs[f]| < TWO32
       case ZSet(zs) => GoodScores(zs)
  }

  function Body(d: Dumped): string
    requires Small(d)
  {
    match d.item.value
    case Str(s) => [TAG_STRING] + Counted(s)
    case List(xs) => [TAG_LIST] + (U32(|xs|) + CountedAll(xs))
    case Set(_) => [TAG_SET] + (U32(|d.order|) + CountedAll(d.order))
    case ZSet(zs) => [TAG_ZSET] + (U32(|d.order|) + Scored(zs, d.order))
    case Hash(fs) => [TAG_HASH] + (U32(|d.order|) + Fields(fs, d.order))
  }

  /** `encodeEntry`. */
  function EntryBytes(d: Dumped): string
    requires Small(d)
  {
    Counted(d.slot.key) + (U64(Unsigned(d.item.at)) + Body(d))
  }

  // ------------------------------------------------------------------------ decoding

  datatype Fault = Short | BadTag

  /** The decoder: its offset, and the first error, after which nothing is read. */
  datatype Cursor = Cursor(off: nat, err: Option<Fault>)

  function Take(b: string, d: Cursor, n: nat): (r: (string, Cursor))
    requires d.off <= |b|
    ensures d.off <= r.1.off <= |b|
    ensures r.1.err.None? ==> d.err.None? && |r.0| == n && r.1.off == d.off + n
  {
    if d.err.Some? then ([], d)
    else if |b| - d.off < n then ([], d.(err := Some(Short)))
    else (b[d.off..d.off + n], d.(off := d.off + n))
  }

  /** The number a little-endian byte string denotes; 0 for no bytes. */
  function Denoted(s: string): nat {
    if s == [] then 0 else s[0] as int + 256 * Denoted(s[1..])
  }

  function GetU32(b: string, d: Cursor): (r: (nat, Cursor))
    requires d.off <= |b|
    ensures d.off <= r.1.off <= |b|
    ensures r.1.err.None? ==> d.err.None? && r.1.off == d.off + 4
  {
    var (s, e) := Take(b, d, 4);
    (Denoted(s), e)
  }

  function GetU64(b: string, d: Cursor): (r: (nat, Cursor))
    requires d.off <= |b|
    ensures d.off <= r.1.off <= |b|
    ensures r.1.err.None? ==> d.err.None? && r.1.off == d.off + 8
  {
    var (s, e) := Take(b, d, 8);
    (Denoted(s), e)
  }

  function GetStr(b: string, d: Cursor): (r: (string, Cursor))
    requires d.off <= |b|
    ensures d.off <= r.1.off <= |b|
    ensures r.1.err.None? ==> d.err.None?
  {
    var (n, e) := GetU32(b, d);
    if e.err.Some? then ([], e) else Take(b, e, n)
  }

  /** The loops over n counted strings, fields or members; an error stops them. */
  function GetList(b: string, d: Cursor, n: nat, acc: seq<string>): (r: (seq<string>, Cursor))
    requires d.off <= |b|
    ensures d.off <= r.1.off <= |b|
    decreases n
  {
    if n == 0 || d.err.Some? then (acc, d)
    else
      var (s, e) := GetStr(b, d);
      GetList(b, e, n - 1, acc + [s])
  }

  function GetSet(b: string, d: Cursor, n: nat, acc: SetValue): (r: (SetValue, Cursor))
    requires d.off <= |b|
    ensures d.off <= r.1.off <= |b|
    decreases n
  {
    if n == 0 || d.err.Some? then (acc, d)
    else
      var (s, e) := GetStr(b, d);
      GetSet(b, e, n - 1, AddOne(acc, s))
  }

  function GetFields(b: string, d: Cursor, n: nat, acc: map<string, string>): (r: (map<string, string>, Cursor))
    requires d.off <= |b|
    ensures d.off <= r.1.off <= |b|
    decreases n
  {
    if n == 0 || d.err.Some? then (acc, d)
    else
      var (f, e) := GetStr(b, d);
      var (v, e2) := GetStr(b, e);
      GetFields(b, e2, n - 1, acc[f := v])
  }

  function GetScores(b: string, d: Cursor, n: nat, acc: map<string, int>): (r: (map<string, int>, Cursor))
    requires d.off <= |b|
    ensures d.off <= r.1.off <= |b|
    decreases n
  {
    if n == 0 || d.err.Some? then (acc, d)
    else
      var (m, e) := GetStr(b, d);
      var (u, e2) := GetU64(b, e);
      GetScores(b, e2, n - 1, acc[m := Signed(u)])
  }

  /** The value after its type tag. */
  function GetValue(b: string, d: Cursor, tag: char): (r: (Option<Value>, Cursor))
    requires d.off <= |b|
    ensures d.off <= r.1.off <= |b|
    ensures r.0.None? ==> r.1.err.Some?
  {
    if tag == TAG_STRING then
      var (s, e) := GetStr(b, d); (Some(Str(s)), e)
    else if tag == TAG_LIST then
      var (n, e) := GetU32(b, d); var (xs, e2) := GetList(b, e, n, []); (Some(List(xs)), e2)
    else if tag == TAG_SET then
      var (n, e) := GetU32(b, d); var (ms, e2) := GetSet(b, e, n, FRESH); (Some(Set(ms)), e2)
    else if tag == TAG_ZSET then
      var (n, e) := GetU32(b, d); var (zs, e2) := GetScores(b, e, n, map[]); (Some(ZSet(zs)), e2)
    else if tag == TAG_HASH then
      var (n, e) := GetU32(b, d); var (fs, e2) := GetFields(b, e, n, map[]); (Some(Hash(fs)), e2)
    else (None, d.(err := Some(BadTag)))
  }

  /** `decodeEntry`: key and entry, None with an error. */
  function Decoded(b: string, d: Cursor): (r: (string, Option<Item>, Cursor))
    requires d.off <= |b|
    ensures d.off <= r.2.off <= |b|
    ensures r.2.err.None? ==> r.1.Some?
  {
    var (key, e) := GetStr(b, d);
    var (at, e2) := GetU64(b, e);
    var (tag, e3) := Take(b, e2, 1);
    if e3.err.Some? then ([], None, e3)
    else
      var (v, e4) := GetValue(b, e3, tag[0]);
      if v.None? then ([], None, e4) else (key, Some(Item(v.value, Signed(at))), e4)
  }

  // ---------------------------------------------------------------------- round trips

  function Pow256(k: nat): nat {
    if k == 0 then 1 else 256 * Pow256(k - 1)
  }

  lemma {:induction false} NumberRoundTrip(n: nat, k: nat)
    requires n < Pow256(k)
    ensures Denoted(LittleEndian(n, k)) == n
    decreases k
  {
    if k > 0 {
      assert n / 256 < Pow256(k - 1);
      NumberRoundTrip(n / 256, k - 1);
      var s := LittleEndian(n, k);
      assert s[1..] == LittleEndian(n / 256, k - 1);
    }
  }

  /** The bytes of a 32-bit number, least significant first; a 64-bit one is its lower half and
      then its upper half. */
  lemma BytesOf(n: nat)
    ensures U32(n) == [(n % 256) as char, (n / 0x100 % 256) as char, (n / 0x1_0000 % 256) as char,
                       (n / 0x100_0000 % 256) as char]
    ensures U64(n) == U32(n) + U32(n / TWO32)
  {
    var a, b, m := n / 256, n / 256 / 256, n / 256 / 256 / 256;
    assert b == n / 0x1_0000 && m == n / 0x100_0000;
    assert LittleEndian(m / 256, 0) == [];
    assert LittleEndian(m, 1) == [(m % 256) as char];
    assert LittleEndian(b, 2) == [(b % 256) as char, (m % 256) as char];
    assert LittleEndian(a, 3) == [(a % 256) as char, (b % 256) as char, (m % 256) as char];
    assert LittleEndian(n, 8) == LittleEndian(n, 4) + LittleEndian(n / TWO32, 4) by { LowAndHigh(n); }
  }

  lemma LowAndHigh(n: nat)
    ensures LittleEndian(n, 8) == LittleEndian(n, 4) + LittleEndian(n / TWO32, 4)
  {
    var a, b, c, d := n, n / 256, n / 256 / 256, n / 256 / 256 / 256;
    var h := LittleEndian(n / TWO32, 4);
    assert d / 256 == n / TWO32;
    assert LittleEndian(d, 5) == LittleEndian(d, 1) + h;
    assert LittleEndian(c, 6) == LittleEndian(c, 2) + h;
    assert LittleEndian(b, 7) == LittleEndian(b, 3) + h;
  }

  lemma Widths()
    ensures Pow256(4) == TWO32 && Pow256(8) == TWO64
  {
    assert Pow256(2) == 65536;
    assert Pow256(4) == TWO32;
    assert Pow256(6) == 65536 * TWO32;
  }

  /** A decoder at offset i, without error. */
  function Reading(i: nat): Cursor { Cursor(i, None) }

  lemma TakesWhatStands(b: string, i: nat, x: string)
    requires StandsAt(b, i, x)
    ensures i + |x| <= |b| && Take(b, Reading(i), |x|) == (x, Reading(i + |x|))
  {
  }

  lemma GetsU32(b: string, i: nat, n: nat)
    requires StandsAt(b, i, U32(n)) && n < TWO32
    ensures i + 4 <= |b| && GetU32(b, Reading(i)) == (n, Reading(i + 4))
  {
    hide StandsAt, Take, LittleEndian, Denoted;
    Widths();
    NumberRoundTrip(n, 4);
    TakesWhatStands(b, i, U32(n));
  }

  lemma GetsI64(b: string, i: nat, n: int)
    requires IsInt64(n) && StandsAt(b, i, U64(Unsigned(n)))
    ensures i + 8 <= |b| && GetU64(b, Reading(i)).1 == Reading(i + 8) && Signed(GetU64(b, Reading(i)).0) == n
  {
    hide StandsAt, Take, LittleEndian, Denoted;
    Widths();
    NumberRoundTrip(Unsigned(n), 8);
    TakesWhatStands(b, i, U64(Unsigned(n)));
  }

  lemma GetsStr(b: string, i: nat, s: string)
    requires StandsAt(b, i, Counted(s)) && |s| < TWO32
    ensures i + |Counted(s)| <= |b| && GetStr(b, Reading(i)) == (s, Reading(i + |Counted(s)|))
  {
    hide StandsAt, Take, GetU32;
    StandsSplit(b, i, U32(|s|), s);
    GetsU32(b, i, |s|);
    TakesWhatStands(b, i + 4, s);
  }

  lemma {:induction false} GetsList(b: string, i: nat, xs: seq<string>, acc: seq<string>)
    requires StandsAt(b, i, CountedAll(xs)) && SmallAll(xs)
    ensures i + |CountedAll(xs)| <= |b|
    ensures GetList(b, Reading(i), |xs|, acc) == (acc + xs, Reading(i + |CountedAll(xs)|))
    decreases |xs|
  {
    hide StandsAt, GetStr, Counted;
    StandsSlice(b, i, CountedAll(xs));
    if xs == [] {
      assert acc + xs == acc;
    } else {
      StandsSplit(b, i, Counted(xs[0]), CountedAll(xs[1..]));
      GetsStr(b, i, xs[0]);
      GetsList(b, i + |Counted(xs[0])|, xs[1..], acc + [xs[0]]);
      assert acc + [xs[0]] + xs[1..] == acc + xs;
    }
  }

  lemma {:induction false} GetsSet(b: string, i: nat, xs: seq<string>, acc: SetValue)
    requires StandsAt(b, i, CountedAll(xs)) && SmallAll(xs)
    ensures i + |CountedAll(xs)| <= |b|
    ensures GetSet(b, Reading(i), |xs|, acc) == (AddAll(acc, xs), Reading(i + |CountedAll(xs)|))
    decreases |xs|
  {
    hide StandsAt, GetStr, Counted, AddOne;
    StandsSlice(b, i, CountedAll(xs));
    if xs != [] {
      StandsSplit(b, i, Counted(xs[0]), CountedAll(xs[1..]));
      GetsStr(b, i, xs[0]);
      GetsSet(b, i + |Counted(xs[0])|, xs[1..], AddOne(acc, xs[0]));
    }
  }

  lemma RestrictCons<V>(acc: map<string, V>, m: map<string, V>, order: seq<string>)
    requires order != [] && order[0] in m
    ensures acc[order[0] := m[order[0]]] + Restrict(m, ToSet(order[1..])) == acc + Restrict(m, ToSet(order))
  {
    ToSetCons(order);
  }

  lemma RestrictNone<V>(acc: map<string, V>, m: map<string, V>)
    ensures acc + Restrict(m, ToSet([])) == acc
  {
  }

  lemma {:induction false} GetsFields(b: string, i: nat, fs: map<string, string>, order: seq<string>,
                                      acc: map<string, string>)
    requires ToSet(order) <= fs.Keys && StandsAt(b, i, Fields(fs, order)) && SmallAll(order)
    requires forall f :: f in fs ==> |fs[f]| < TWO32
    ensures i + |Fields(fs, order)| <= |b|
    ensures GetFields(b, Reading(i), |order|, acc)
         == (acc + Restrict(fs, ToSet(order)), Reading(i + |Fields(fs, order)|))
    decreases |order|
  {
    hide StandsAt, GetStr, Counted, Restrict, ToSet;
    StandsSlice(b, i, Fields(fs, order));
    if order == [] {
      RestrictNone(acc, fs);
    } else {
      var f, rest := order[0], order[1..];
      ToSetCons(order);
      StandsSplit(b, i, Counted(f), Counted(fs[f]) + Fields(fs, rest));
      StandsSplit(b, i + |Counted(f)|, Counted(fs[f]), Fields(fs, rest));
      GetsStr(b, i, f);
      GetsStr(b, i + |Counted(f)|, fs[f]);
      GetsFields(b, i + |Counted(f)| + |Counted(fs[f])|, fs, rest, acc[f := fs[f]]);
      RestrictCons(acc, fs, order);
    }
  }

  lemma {:induction false} GetsScores(b: string, i: nat, zs: map<string, int>, order: seq<string>, acc: map<string,
                                      int>)
    requires ToSet(order) <= zs.Keys && GoodScores(zs) && StandsAt(b, i, Scored(zs, order)) && SmallAll(order)
    ensures i + |Scored(zs, order)| <= |b|
    ensures GetScores(b, Reading(i), |order|, acc)
         == (acc + Restrict(zs, ToSet(order)), Reading(i + |Scored(zs, order)|))
    decreases |order|
  {
    hide StandsAt, GetStr, Counted, GetU64, U64, Unsigned, Signed, Restrict, ToSet;
    StandsSlice(b, i, Scored(zs, order));
    if order == [] {
      RestrictNone(acc, zs);
    } else {
      var m, rest := order[0], order[1..];
      ToSetCons(order);
      StandsSplit(b, i, Counted(m), U64(Unsigned(zs[m])) + Scored(zs, rest));
      StandsSplit(b, i + |Counted(m)|, U64(Unsigned(zs[m])), Scored(zs, rest));
      GetsStr(b, i, m);
      GetsI64(b, i + |Counted(m)|, zs[m]);
      Width8(Unsigned(zs[m]));
      GetsScores(b, i + |Counted(m)| + 8, zs, rest, acc[m := zs[m]]);
      RestrictCons(acc, zs, order);
    }
  }

  lemma Width8(n: nat)
    ensures |U64(n)| == 8 && |U32(n)| == 4
  {
  }

  /** The value of an entry, from the offset of its tag on. */
  lemma GetsValue(b: string, i: nat, d: Dumped)
    requires Small(d) && StandsAt(b, i, Body(d))
    ensures i + |Body(d)| <= |b| && Body(d) != []
    ensures GetValue(b, Reading(i + 1), Body(d)[0]) == (Some(Reloaded(d).value), Reading(i + |Body(d)|))
  {
    hide StandsAt, Counted, CountedAll, U32, GetU32, GetStr, GetList, GetSet;
    hide GetFields, GetScores, Fields, Scored, Restrict, ToSet, NoRepeats, AddAll;
    StandsSlice(b, i, Body(d));
    var tag, order := [Body(d)[0]], d.order;
    match d.item.value
    case Str(s) =>
      StandsSplit(b, i, tag, Counted(s));
      GetsStr(b, i + 1, s);
    case List(xs) =>
      CountThenBody(b, i, Body(d)[0], |xs|, CountedAll(xs));
      GetsList(b, i + 5, xs, []);
      assert [] + xs == xs;
    case Set(_) =>
      CountThenBody(b, i, Body(d)[0], |order|, CountedAll(order));
      GetsSet(b, i + 5, order, FRESH);
    case ZSet(zs) =>
      CountThenBody(b, i, Body(d)[0], |order|, Scored(zs, order));
      GetsScores(b, i + 5, zs, order, map[]);
      MergeIntoNothing(zs);
    case Hash(fs) =>
      CountThenBody(b, i, Body(d)[0], |order|, Fields(fs, order));
      GetsFields(b, i + 5, fs, order, map[]);
      MergeIntoNothing(fs);
  }

  lemma CountThenBody(b: string, i: nat, tag: char, n: nat, x: string)
    requires StandsAt(b, i, [tag] + (U32(n) + x)) && n < TWO32
    ensures i + 5 <= |b| && GetU32(b, Reading(i + 1)) == (n, Reading(i + 5)) && StandsAt(b, i + 5, x)
    ensures |[tag] + (U32(n) + x)| == 5 + |x|
  {
    hide StandsAt, U32, GetU32;
    Width8(n);
    StandsSplit(b, i, [tag], U32(n) + x);
    StandsSplit(b, i + 1, U32(n), x);
    GetsU32(b, i + 1, n);
  }

  lemma SmallHead(d: Dumped)
    requires Small(d)
    ensures |d.slot.key| < TWO32 && IsInt64(d.item.at)
  {
  }

  /** Decoding an encoded entry, whatever bytes follow, returns its key, value and
      deadline, with a set filled again from empty, and stops at the first of those bytes. */
  lemma EntryRoundTrip(b: string, i: nat, d: Dumped)
    requires Small(d) && StandsAt(b, i, EntryBytes(d))
    ensures i + |EntryBytes(d)| <= |b|
    ensures Decoded(b, Reading(i)) == (d.slot.key, Some(Reloaded(d)), Reading(i + |EntryBytes(d)|))
  {
    hide StandsAt, Counted, U64, GetStr, GetU64, GetValue, Body, Small, Unsigned, Signed, ReloadedValue;
    StandsSlice(b, i, EntryBytes(d));
    SmallHead(d);
    var key, at := d.slot.key, Unsigned(d.item.at);
    var k := i + |Counted(key)|;
    assert EntryBytes(d) == Counted(key) + (U64(at) + Body(d));
    StandsSplit(b, i, Counted(key), U64(at) + Body(d));
    StandsSplit(b, k, U64(at), Body(d));
    Width8(at);
    GetsStr(b, i, key);
    GetsI64(b, k, d.item.at);
    GetsValue(b, k + 8, d);
    StandsChar(b, k + 8, Body(d), 0);
    assert b[k + 8..k + 8 + 1] == [b[k + 8]];
  }

  // ---------------------------------------------------------------------- the decoder

  /** The decoder object of the source, moved forward by each read. */
  class Decoder {
    const b: string
    var off: nat
    var err: Option<Fault>

    ghost predicate Valid()
      reads this
    {
      off <= |b|
    }

    ghost function Now(): Cursor
      reads this
    {
      Cursor(off, err)
    }

    constructor (b: string)
      ensures Valid() && Now() == Reading(0) && this.b == b
    {
      this.b, off, err := b, 0, None;
    }

    method TakeN(n: nat) returns (s: string)
      requires Valid()
      modifies this
      ensures Valid() && (s, Now()) == Take(b, old(Now()), n)
    {
      if err.Some? { return []; }
      if |b| - off < n {
        err := Some(Short);
        return [];
      }
      s := b[off..off + n];
      off := off + n;
    }

    method ReadU32() returns (n: nat)
      requires Valid()
      modifies this
      ensures Valid() && (n, Now()) == GetU32(b, old(Now()))
    {
      hide Take, Denoted;
      var s := TakeN(4);
      n := Denoted(s);
    }

    method ReadU64() returns (n: nat)
      requires Valid()
      modifies this
      ensures Valid() && (n, Now()) == GetU64(b, old(Now()))
    {
      hide Take, Denoted;
      var s := TakeN(8);
      n := Denoted(s);
    }

    method ReadStr() returns (s: string)
      requires Valid()
      modifies this
      ensures Valid() && (s, Now()) == GetStr(b, old(Now()))
    {
      hide Take, GetU32;
      var n := ReadU32();
      if err.Some? { return []; }
      s := TakeN(n);
    }

    method ReadList() returns (xs: seq<string>)
      requires Valid()
      modifies this
      ensures Valid()
      ensures var (n, e) := GetU32(b, old(Now())); (xs, Now()) == GetList(b, e, n, [])
    {
      hide GetU32, GetStr;
      var n := ReadU32();
      xs := [];
      ghost var want := GetList(b, Now(), n, []);
      while n > 0 && err.None?
        invariant Valid() && GetList(b, Now(), n, xs) == want
        decreases n
      {
        var s := ReadStr();
        xs, n := xs + [s], n - 1;
      }
    }

    /** The members are added to a new set object. */
    method ReadSet() returns (e: SetValue)
      requires Valid()
      modifies this
      ensures Valid()
      ensures var (n, d) := GetU32(b, old(Now())); (e, Now()) == GetSet(b, d, n, FRESH)
    {
      hide GetU32, GetStr, AddOne;
      var n := ReadU32();
      var s := new IntSet.Set();
      ghost var want := GetSet(b, Now(), n, FRESH);
      while n > 0 && err.None?
        invariant Valid() && s.Valid() && GetSet(b, Now(), n, s.Value()) == want
        decreases n
      {
        var m := ReadStr();
        var _ := s.Add(m);
        n := n - 1;
      }
      e := s.AsValue();
    }

    method ReadScores() returns (zs: map<string, int>)
      requires Valid()
      modifies this
      ensures Valid()
      ensures var (n, e) := GetU32(b, old(Now())); (zs, Now()) == GetScores(b, e, n, map[])
    {
      hide GetU32, GetU64, GetStr, Signed;
      var n := ReadU32();
      zs := map[];
      ghost var want := GetScores(b, Now(), n, map[]);
      while n > 0 && err.None?
        invariant Valid() && GetScores(b, Now(), n, zs) == want
        decreases n
      {
        var m := ReadStr();
        var u := ReadU64();
        zs, n := zs[m := Signed(u)], n - 1;
      }
    }

    method ReadFields() returns (fs: map<string, string>)
      requires Valid()
      modifies this
      ensures Valid()
      ensures var (n, e) := GetU32(b, old(Now())); (fs, Now()) == GetFields(b, e, n, map[])
    {
      hide GetU32, GetStr;
      var n := ReadU32();
      fs := map[];
      ghost var want := GetFields(b, Now(), n, map[]);
      while n > 0 && err.None?
        invariant Valid() && GetFields(b, Now(), n, fs) == want
        decreases n
      {
        var f := ReadStr();
        var v := ReadStr();
        fs, n := fs[f := v], n - 1;
      }
    }

    /** `decodeEntry`. */
    method DecodeEntry() returns (key: string, item: Option<Item>)
      requires Valid()
      modifies this
      ensures Valid() && (key, item, Now()) == Decoded(b, old(Now()))
    {
      hide Take, GetU32, GetU64, GetStr, GetList, GetSet, GetScores, GetFields, Signed;
      key := ReadStr();
      var at := ReadU64();
      var tag := TakeN(1);
      if err.Some? { return [], None; }
      var v: Value;
      if tag[0] == TAG_STRING {
        var s := ReadStr();
        v := Str(s);
      } else if tag[0] == TAG_LIST {
        var xs := ReadList();
        v := List(xs);
      } else if tag[0] == TAG_SET {
        var ms := ReadSet();
        v := Set(ms);
      } else if tag[0] == TAG_ZSET {
        var zs := ReadScores();
        v := ZSet(zs);
      } else if tag[0] == TAG_HASH {
        var fs := ReadFields();
        v := Hash(fs);
      } else {
        err := Some(BadTag);
        return [], None;
      }
      item := Some(Item(v, Signed(at)));
    }
  }
}
