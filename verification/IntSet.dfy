/**
 The set value with two encodings (lib/types/set.go): a sorted slice of int64 while all
 members are integers and few, and a hash set of strings after that.  Both stand for the
 same mathematical set of strings, as far as integers parse exactly.
 */
module IntSet {
  import opened Basics
  import opened Decimal
  import opened SetEncoding

  predicate StrictlySorted(s: seq<int>) {
    forall i, j :: 0 <= i < j < |s| ==> s[i] < s[j]
  }

  predicate AllInt64(s: seq<int>) {
    forall i :: 0 <= i < |s| ==> IsInt64(s[i])
  }

  /** The members an integer slice stands for. */
  function Texts(s: seq<int>): set<string> {
    set v | v in s :: FormatInt(v)
  }

  lemma FormatInjective(a: int, b: int)
    requires IsInt64(a) && IsInt64(b)
    ensures FormatInt(a) == FormatInt(b) <==> a == b
  {
    hide FormatInt, ParseInt64;
    ParseOfFormat(a);
    ParseOfFormat(b);
  }

  lemma TextsHas(s: seq<int>, v: int)
    requires AllInt64(s) && IsInt64(v)
    ensures FormatInt(v) in Texts(s) <==> v in s
  {
    hide FormatInt;
    if FormatInt(v) in Texts(s) {
      var w :| w in s && FormatInt(w) == FormatInt(v);
      FormatInjective(v, w);
    }
  }

  /** A text that parses as no integer is no member of an integer slice. */
  lemma NotANumber(s: seq<int>, m: string)
    requires AllInt64(s) && ParseInt64(m).None?
    ensures m !in Texts(s)
  {
    hide FormatInt, ParseInt64;
    forall v | v in s ensures FormatInt(v) != m {
      ParseOfFormat(v);
    }
  }

  lemma TextsInsert(s: seq<int>, i: nat, v: int)
    requires i <= |s|
    ensures Texts(s[..i] + [v] + s[i..]) == Texts(s) + {FormatInt(v)}
  {
    hide FormatInt;
    var t := s[..i] + [v] + s[i..];
    assert s == s[..i] + s[i..];
    assert forall x :: x in t <==> x in s || x == v;
  }

  lemma RemoveAt(s: seq<int>, i: nat, x: int)
    requires i < |s| && StrictlySorted(s)
    ensures x in s[..i] + s[i + 1..] <==> x in s && x != s[i]
  {
    var t := s[..i] + s[i + 1..];
    if x in s && x != s[i] {
      var k :| 0 <= k < |s| && s[k] == x;
      assert t[if k < i then k else k - 1] == x;
    }
    if k :| 0 <= k < |t| && t[k] == x {
      assert s[if k < i then k else k + 1] == x;
    }
  }

  lemma TextsRemove(s: seq<int>, i: nat)
    requires i < |s| && StrictlySorted(s) && AllInt64(s)
    ensures Texts(s[..i] + s[i + 1..]) == Texts(s) - {FormatInt(s[i])}
  {
    hide FormatInt, StrictlySorted;
    var t := s[..i] + s[i + 1..];
    forall m ensures m in Texts(t) <==> m in Texts(s) - {FormatInt(s[i])} {
      if m in Texts(t) {
        var v :| v in t && FormatInt(v) == m;
        RemoveAt(s, i, v);
        FormatInjective(v, s[i]);
      }
      if m in Texts(s) && m != FormatInt(s[i]) {
        var v :| v in s && FormatInt(v) == m;
        RemoveAt(s, i, v);
      }
    }
  }

  // ---------------------------------------------------------------------- byte counts

  ghost function TotalLength(s: set<string>): nat
    decreases |s|
  {
    if s == {} then 0 else var x :| x in s; |x| + TotalLength(s - {x})
  }

  lemma {:induction false} TotalWithout(s: set<string>, x: string)
    requires x in s
    ensures TotalLength(s) == |x| + TotalLength(s - {x})
    decreases |s|
  {
    var y :| y in s && TotalLength(s) == |y| + TotalLength(s - {y});
    if x != y {
      TotalWithout(s - {y}, x);
      TotalWithout(s - {x}, y);
      assert s - {y} - {x} == s - {x} - {y};
    }
  }

  lemma TotalWith(s: set<string>, x: string)
    requires x !in s
    ensures TotalLength(s + {x}) == |x| + TotalLength(s)
  {
    TotalWithout(s + {x}, x);
    assert s + {x} - {x} == s;
  }

  // -------------------------------------------------------------------------- the set

  class Set {
    var ints: seq<int>
    var isInt: bool
    var member: set<string>
    var bytes: int

    ghost predicate Valid()
      reads this
    {
      if isInt then StrictlySorted(ints) && AllInt64(ints) && |ints| <= MAX_ENTRIES && bytes == 0
      else bytes == TotalLength(member)
    }

    /** The mathematical set. */
    ghost function Contents(): set<string>
      reads this
    {
      if isInt then Texts(ints) else member
    }

    /** The set as a value: its members and its encoding. */
    ghost function Value(): (v: SetValue)
      requires Valid()
      reads this
      ensures v == Encoded(isInt, Contents())
    {
      if isInt then TextsAreSound(ints); Encoded(true, Contents()) else Encoded(false, Contents())
    }

    constructor ()
      ensures Valid() && Value() == FRESH
    {
      ints, isInt, member, bytes := [], true, {}, 0;
    }

    /** Binary search: the position of v, or where it belongs. */
    method Find(v: int) returns (i: nat, found: bool)
      requires StrictlySorted(ints)
      ensures i <= |ints| && found == (v in ints) && (found ==> i < |ints| && ints[i] == v)
      ensures forall k :: 0 <= k < i ==> ints[k] < v
      ensures !found ==> forall k :: i <= k < |ints| ==> v < ints[k]
    {
      var lo, hi := 0, |ints|;
      while lo < hi
        invariant 0 <= lo <= hi <= |ints|
        invariant forall k :: 0 <= k < lo ==> ints[k] < v
        invariant forall k :: hi <= k < |ints| ==> v < ints[k]
      {
        var mid := (lo + hi) / 2;
        if ints[mid] < v {
          lo := mid + 1;
        } else if ints[mid] > v {
          hi := mid;
        } else {
          return mid, true;
        }
      }
      return lo, false;
    }

    method Contains(m: string) returns (r: bool)
      requires Valid()
      ensures r == (Meant(Value(), m) in Value().ms)
      ensures Exact(m) || !isInt ==> r == (m in Value().ms)
    {
      hide ParseInt64, FormatInt, Texts;
      if isInt {
        var n := ParseInt64(m);
        if n.None? {
          NotANumber(ints, m);
          return false;
        }
        ParsedInt64(m);
        TextsHas(ints, n.value);
        var _, found := Find(n.value);
        return found;
      }
      return m in member;
    }

    /** Adds m, or the integer it is taken for; says whether that was new. */
    method Add(m: string) returns (r: bool)
      requires Valid()
      modifies this
      ensures Valid() && Value() == AddOne(old(Value()), m)
      ensures r == (Taken(old(Value()), m) !in old(Value()).ms)
    {
      hide ParseInt64, FormatInt, Texts, TotalLength;
      var n := ParseInt64(m);
      if isInt && n.Some? {
        var i, found := Find(n.value);
        ParsedInt64(m);
        TextsHas(ints, n.value);
        TextsCount(ints);
        if found {
          assert Contents() + {Canon(m)} == Contents();
          return false;
        } else if |ints| < MAX_ENTRIES {
          TextsInsert(ints, i, n.value);
          ints := ints[..i] + [n.value] + ints[i..];
          return true;
        }
      }
      if isInt { Promote(); }
      if m in member {
        assert Contents() + {m} == Contents();
        return false;
      }
      TotalWith(member, m);
      member := member + {m};
      bytes := bytes + |m|;
      return true;
    }

    /** The change of encoding: same members, exact byte count. */
    method Promote()
      requires Valid() && isInt
      modifies this
      ensures Valid() && Value() == Encoded(false, old(Value()).ms)
    {
      hide FormatInt, TotalLength;
      member := {};
      assert TotalLength({}) == 0 by { NoLength(); }
      var k := 0;
      while k < |ints|
        invariant 0 <= k <= |ints| && ints == old(ints) && isInt
        invariant member == Texts(ints[..k]) && bytes == TotalLength(member)
      {
        var m := FormatInt(ints[k]);
        assert ints[..k + 1] == ints[..k] + [ints[k]];
        TextsHas(ints[..k], ints[k]);
        TotalWith(member, m);
        member := member + {m};
        bytes := bytes + |m|;
        k := k + 1;
      }
      assert ints[..k] == ints;
      ints := [];
      isInt := false;
    }

    method Remove(m: string) returns (r: bool)
      requires Valid()
      modifies this
      ensures Valid() && Value() == RemoveOne(old(Value()), m)
      ensures r == (Meant(old(Value()), m) in old(Value()).ms)
    {
      hide ParseInt64, FormatInt, Texts, TotalLength;
      if isInt {
        var n := ParseInt64(m);
        if n.None? {
          NotANumber(ints, m);
          assert Contents() - {m} == Contents();
          return false;
        }
        ParsedInt64(m);
        TextsHas(ints, n.value);
        var i, found := Find(n.value);
        if !found {
          assert Contents() - {Canon(m)} == Contents();
          return false;
        }
        TextsRemove(ints, i);
        ints := ints[..i] + ints[i + 1..];
        return true;
      }
      if m !in member {
        assert Contents() - {m} == Contents();
        return false;
      }
      TotalWithout(member, m);
      member := member - {m};
      bytes := bytes - |m|;
      return true;
    }

    /** Members added one after the other, as SADD and a reload do. */
    method AddMembers(ms: seq<string>)
      requires Valid()
      modifies this
      ensures Valid() && Value() == AddAll(old(Value()), ms)
    {
      hide AddOne;
      var i := 0;
      assert ms[0..] == ms;
      while i < |ms|
        invariant 0 <= i <= |ms| && Valid()
        invariant AddAll(Value(), ms[i..]) == AddAll(old(Value()), ms)
      {
        assert ms[i..][0] == ms[i] && ms[i..][1..] == ms[i + 1..];
        var _ := Add(ms[i]);
        i := i + 1;
      }
    }

    method AsValue() returns (e: SetValue)
      requires Valid()
      ensures e == Value()
    {
      var ms := Members();
      e := Encoded(isInt, ms);
    }

    /** The members, as the texts they are listed with. */
    method Members() returns (ms: set<string>)
      requires Valid()
      ensures ms == Value().ms
    {
      return if isInt then Texts(ints) else member;
    }

    method Cardinality() returns (n: nat)
      requires Valid()
      ensures n == |Value().ms|
    {
      hide FormatInt;
      if isInt {
        TextsCount(ints);
        return |ints|;
      }
      return |member|;
    }
  }

  lemma TextsAreSound(s: seq<int>)
    requires StrictlySorted(s) && AllInt64(s) && |s| <= MAX_ENTRIES
    ensures Sound(Encoded(true, Texts(s)))
  {
    hide FormatInt, IsPrint;
    TextsCount(s);
    forall m | m in Texts(s) ensures IsPrint(m) {
      var v :| v in s && FormatInt(v) == m;
      FormatIsPrint(v);
    }
  }

  lemma NoLength()
    ensures TotalLength({}) == 0
  {
  }

  lemma {:induction false} TextsCount(s: seq<int>)
    requires StrictlySorted(s) && AllInt64(s)
    ensures |Texts(s)| == |s|
  {
    hide FormatInt;
    if s != [] {
      var front, v := s[..|s| - 1], s[|s| - 1];
      TextsCount(front);
      TextsHas(front, v);
      assert s == front + [v];
      assert Texts(s) == Texts(front) + {FormatInt(v)};
    }
  }

  // ----------------------------------------------------------------------- whole runs

  datatype Op = AddOp(m: string) | RemoveOp(m: string) | ContainsOp(m: string)

  function After(s: set<string>, op: Op): set<string> {
    match op case AddOp(m) => s + {m} case RemoveOp(m) => s - {m} case ContainsOp(_) => s
  }

  function Answer(s: set<string>, op: Op): bool {
    match op case AddOp(m) => m !in s case RemoveOp(m) => m in s case ContainsOp(m) => m in s
  }

  /** What a mathematical set answers to a list of operations. */
  function Answers(s: set<string>, ops: seq<Op>): seq<bool>
    decreases |ops|
  {
    if ops == [] then [] else [Answer(s, ops[0])] + Answers(After(s, ops[0]), ops[1..])
  }

  lemma AnswersFrom(s: set<string>, ops: seq<Op>, i: nat)
    requires i < |ops|
    ensures Answers(s, ops[i..]) == [Answer(s, ops[i])] + Answers(After(s, ops[i]), ops[i + 1..])
  {
    hide Answer, After;
    assert ops[i..][1..] == ops[i + 1..];
  }

  lemma NoAnswers(s: set<string>)
    ensures Answers(s, []) == []
  {
  }

  /** Over every list of operations on exact members, across the change of encoding, the
      object answers as the mathematical set does. */
  method RunOps(ops: seq<Op>) returns (answers: seq<bool>)
    requires forall i :: 0 <= i < |ops| ==> Exact(ops[i].m)
    ensures answers == Answers({}, ops)
  {
    hide Exact, After, Answer, Answers;
    var s := new Set();
    answers := [];
    var i := 0;
    assert ops[0..] == ops;
    while i < |ops|
      invariant 0 <= i <= |ops| && s.Valid()
      invariant answers + Answers(s.Value().ms, ops[i..]) == Answers({}, ops)
    {
      AnswersFrom(s.Value().ms, ops, i);
      var r := Apply(s, ops[i]);
      answers, i := answers + [r], i + 1;
    }
    NoAnswers(s.Value().ms);
    assert ops[i..] == [];
  }

  method Apply(s: Set, op: Op) returns (r: bool)
    requires s.Valid() && Exact(op.m)
    modifies s
    ensures s.Valid() && s.Value().ms == After(old(s.Value()).ms, op) && r == Answer(old(s.Value()).ms, op)
  {
    hide ParseInt64, FormatInt, Texts;
    match op
    case AddOp(m) => r := s.Add(m);
    case RemoveOp(m) => r := s.Remove(m);
    case ContainsOp(m) => r := s.Contains(m);
  }

  /** While the set holds integers, a text of 20 digits is taken for a small number: r is
      added and 2^64 + r is reported as a member. */
  method WrappedMember(r: nat) returns (yes: bool)
    requires r < TWO63
    ensures yes && Digits(r + TWO64) != FormatInt(r)
  {
    hide ParseInt64, FormatInt, Digits, Texts;
    var s := new Set();
    FormatIsPrint(r);
    var _ := s.Add(FormatInt(r));
    WrappedIsInexact(r);
    yes := s.Contains(Digits(r + TWO64));
  }

  /** A reload that loses a member.  A word promotes the set, the text of 2^64 + r goes in
      as it is, and the word goes out again; a fresh set that is given the one member left,
      as by a replayed dump or a loaded snapshot, holds r instead. */
  method ReloadLosesMember(r: nat, word: string) returns (before: set<string>, after: set<string>)
    requires r < TWO63 && ParseInt64(word).None?
    ensures before == {Digits(r + TWO64)} && after == {FormatInt(r)} && before != after
  {
    hide ParseInt64, FormatInt, Digits, Texts;
    var wrapped := Digits(r + TWO64);
    WrappedIsInexact(r);
    WrappedFamily(r);
    var s := new Set();
    var _ := s.Add(word);
    var _ := s.Add(wrapped);
    var _ := s.Remove(word);
    before := s.Members();
    var t := new Set();
    var _ := t.Add(wrapped);
    after := t.Members();
  }
}
