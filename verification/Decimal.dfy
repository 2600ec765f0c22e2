/**
 Decimal integers as the server reads and writes them: `strconv.FormatInt`, the strict
 parser that appears as `ParseInt64` (lib/types/types.go) and as `parseIntStrict`
 (lib/commands/engine.go), and `strconv.Atoi`.  Machine arithmetic is explicit.
 */
module Decimal {
  import opened Basics

  const TWO63: int := 0x8000_0000_0000_0000
  const TWO64: int := 0x1_0000_0000_0000_0000
  const MAX64: int := 0x7FFF_FFFF_FFFF_FFFF

  predicate IsInt64(n: int) {
    -TWO63 <= n < TWO63
  }

  /** The int64 that a machine computation with exact result x leaves. */
  function Wrap(x: int): (r: int)
    ensures IsInt64(r)
    ensures IsInt64(x) ==> r == x
  {
    (x + TWO63) % TWO64 - TWO63
  }

  // ------------------------------------------------------------------ printing

  predicate IsDigit(c: char) {
    '0' <= c <= '9'
  }

  predicate AllDigits(s: string) {
    forall i :: 0 <= i < |s| ==> IsDigit(s[i])
  }

  function DigitOf(c: char): nat
    requires IsDigit(c)
  {
    (c - '0') as nat
  }

  function DigitChar(d: nat): (c: char)
    requires d < 10
    ensures IsDigit(c) && DigitOf(c) == d
  {
    '0' + d as char
  }

  function Digits(n: nat): (s: string)
    ensures s != [] && AllDigits(s)
    ensures n > 0 ==> s[0] != '0'
  {
    if n < 10 then [DigitChar(n)] else Digits(n / 10) + [DigitChar(n % 10)]
  }

  function FormatInt(n: int): string {
    if n < 0 then ['-'] + Digits(-n) else Digits(n)
  }

  /** The number a digit string denotes. */
  function Value(s: string): nat
    requires AllDigits(s)
  {
    if s == [] then 0 else 10 * Value(s[..|s| - 1]) + DigitOf(s[|s| - 1])
  }

  function Pow10(n: nat): nat {
    if n == 0 then 1 else 10 * Pow10(n - 1)
  }

  lemma {:induction false} ValueOfDigits(n: nat)
    ensures Value(Digits(n)) == n
  {
    var s := Digits(n);
    if n >= 10 {
      ValueOfDigits(n / 10);
      assert s[..|s| - 1] == Digits(n / 10);
    } else {
      assert s[..0] == [];
    }
  }

  lemma DigitsSnoc(a: nat, d: nat)
    requires 0 < a && d < 10
    ensures Digits(10 * a + d) == Digits(a) + [DigitChar(d)]
  {
    var n := 10 * a + d;
    assert n / 10 == a && n % 10 == d;
  }

  lemma ValueSnoc(s: string)
    requires s != [] && AllDigits(s)
    ensures Value(s) == 10 * Value(s[..|s| - 1]) + DigitOf(s[|s| - 1])
  {
  }

  lemma {:induction false} DigitsOfValue(s: string)
    requires s != [] && AllDigits(s) && s[0] != '0'
    ensures Value(s) > 0 && Digits(Value(s)) == s
  {
    var front, c := s[..|s| - 1], s[|s| - 1];
    var d := DigitOf(c);
    ValueSnoc(s);
    if front == [] {
      assert Value(front) == 0 && s == [c];
    } else {
      assert front[0] == s[0];
      DigitsOfValue(front);
      DigitsSnoc(Value(front), d);
      assert s == front + [c];
    }
  }

  lemma {:induction false} ValueBound(s: string)
    requires AllDigits(s)
    ensures Value(s) < Pow10(|s|)
  {
    if s != [] { ValueBound(s[..|s| - 1]); }
  }

  lemma {:induction false} DigitsLength(n: nat, k: nat)
    requires k > 0
    ensures |Digits(n)| <= k <==> n < Pow10(k)
    decreases k
  {
    if n < 10 {
      PowPositive(k - 1);
    } else if k == 1 {
    } else {
      DigitsLength(n / 10, k - 1);
      assert n / 10 < Pow10(k - 1) <==> n < 10 * Pow10(k - 1);
    }
  }

  lemma {:induction false} PowPositive(n: nat)
    ensures Pow10(n) >= 1
  {
    if n > 0 { PowPositive(n - 1); }
  }

  lemma {:induction false} PowMonotone(m: nat, n: nat)
    requires m <= n
    ensures Pow10(m) <= Pow10(n)
    decreases n
  {
    if m < n { PowMonotone(m, n - 1); }
  }

  lemma Pow19()
    ensures Pow10(19) == 10_000_000_000_000_000_000
    ensures TWO63 < Pow10(19) < TWO64
  {
    assert Pow10(4) == 10_000;
    assert Pow10(8) == 100_000_000;
    assert Pow10(12) == 1_000_000_000_000;
    assert Pow10(16) == 10_000_000_000_000_000;
  }

  // ------------------------------------------------------------ strict parsing

  /** The accumulator of the parse loop after the characters of s: a uint64 that
      wraps, checked against 2^63 after each digit. */
  function Accumulate(s: string): Option<nat> {
    if s == [] then Some(0)
    else
      var before := Accumulate(s[..|s| - 1]);
      var c := s[|s| - 1];
      if before.None? || !IsDigit(c) then None
      else
        var v := (before.value * 10 + DigitOf(c)) % TWO64;
        if v > TWO63 then None else Some(v)
  }

  function ParseInt64(s: string): Option<int> {
    if s == [] then None
    else if s[0] == '-' then
      if |s| == 1 || s[1] == '0' then None
      else
        var v := Accumulate(s[1..]);
        if v.None? then None else Some(0 - v.value)
    else if s[0] == '0' then
      if |s| == 1 then Some(0) else None
    else
      var v := Accumulate(s);
      if v.None? || v.value >= TWO63 then None else Some(v.value)
  }

  /** The digit loop of the source. */
  method AccumulateLoop(s: string) returns (v: nat, ok: bool)
    ensures ok == Accumulate(s).Some?
    ensures ok ==> v == Accumulate(s).value
  {
    v, ok := 0, true;
    var i := 0;
    while i < |s|
      invariant 0 <= i <= |s| && Accumulate(s[..i]) == Some(v)
    {
      var c := s[i];
      assert s[..i + 1][..i] == s[..i] && s[..i + 1][i] == c;
      if c < '0' || c > '9' {
        RejectedStays(s, i + 1);
        return 0, false;
      }
      v := (v * 10 + DigitOf(c)) % TWO64;
      if v > TWO63 {
        RejectedStays(s, i + 1);
        return 0, false;
      }
      i := i + 1;
    }
    assert s[..i] == s;
  }

  method ParseInt64Loop(s: string) returns (n: int, ok: bool)
    ensures ok == ParseInt64(s).Some?
    ensures ok ==> n == ParseInt64(s).value
  {
    if |s| == 0 { return 0, false; }
    var i, neg := 0, false;
    if s[0] == '-' {
      neg, i := true, 1;
      if |s| == 1 { return 0, false; }
    }
    if s[i] == '0' {
      if |s| - i != 1 || neg { return 0, false; }
      return 0, true;
    }
    assert !neg ==> s[i..] == s;
    var v, good := AccumulateLoop(s[i..]);
    if !good { return 0, false; }
    if neg { return 0 - v, true; }
    if v >= TWO63 { return 0, false; }
    return v, true;
  }

  lemma {:induction false} RejectedStays(s: string, k: nat)
    requires k <= |s| && Accumulate(s[..k]).None?
    ensures Accumulate(s).None?
    decreases |s|
  {
    if k == |s| {
      assert s[..k] == s;
    } else {
      assert s[..|s| - 1][..k] == s[..k];
      RejectedStays(s[..|s| - 1], k);
    }
  }

  /** What the accumulator computes, for strings of any length: it accepts when every
      prefix, reduced modulo 2^64, stays within 2^63. */
  predicate StaysLow(s: string)
    requires AllDigits(s)
  {
    forall k :: 1 <= k <= |s| ==> Low(s[..k])
  }

  predicate Low(s: string)
    requires AllDigits(s)
  {
    Value(s) % TWO64 <= TWO63
  }

  lemma StaysLowSnoc(s: string)
    requires s != [] && AllDigits(s)
    ensures StaysLow(s) <==> StaysLow(s[..|s| - 1]) && Low(s)
  {
    hide Low;
    var front := s[..|s| - 1];
    assert s[..|s|] == s;
    forall k | 1 <= k <= |front| ensures front[..k] == s[..k] {
      assert front[..k] == s[..k];
    }
    if StaysLow(front) && Low(s) {
      forall k | 1 <= k <= |s| ensures Low(s[..k]) {
        if k <= |front| { assert Low(front[..k]); }
      }
    }
    if StaysLow(s) {
      assert Low(s[..|s|]);
      forall k | 1 <= k <= |front| ensures Low(front[..k]) {
        assert Low(s[..k]);
      }
    }
  }

  lemma {:induction false} AccumulateMeans(s: string)
    ensures Accumulate(s).Some? <==> AllDigits(s) && StaysLow(s)
    ensures Accumulate(s).Some? ==> Accumulate(s).value == Value(s) % TWO64
    decreases |s|
  {
    if s != [] {
      var front := s[..|s| - 1];
      AccumulateMeans(front);
      if AllDigits(s) {
        StaysLowSnoc(s);
        ModTimesTen(Value(front), DigitOf(s[|s| - 1]));
      } else if AllDigits(front) {
        assert !IsDigit(s[|s| - 1]);
      }
    }
  }

  lemma ModTimesTen(a: nat, d: nat)
    ensures (a % TWO64 * 10 + d) % TWO64 == (a * 10 + d) % TWO64
  {
    var q, r := a / TWO64, a % TWO64;
    assert a * 10 + d == (r * 10 + d) + (10 * q) * TWO64;
    ModPlusMultiple(r * 10 + d, 10 * q);
  }

  lemma ModPlusMultiple(x: nat, q: nat)
    ensures (x + q * TWO64) % TWO64 == x % TWO64
  {
    var k, r := x / TWO64, x % TWO64;
    assert x + q * TWO64 == (k + q) * TWO64 + r;
  }

  /** The digits of s, without its sign. */
  function Body(s: string): string {
    if s != [] && s[0] == '-' then s[1..] else s
  }

  lemma ShortPrefixes(s: string)
    requires AllDigits(s) && |s| <= 19
    ensures forall k :: 0 <= k <= |s| ==> Value(s[..k]) <= Value(s) < TWO64
  {
    Pow19();
    ValueBound(s);
    PowMonotone(|s|, 19);
    PrefixesBelow(s);
  }

  lemma ModSmall(x: nat)
    requires x < TWO64
    ensures x % TWO64 == x
  {
  }

  lemma ShortStaysLow(s: string)
    requires AllDigits(s) && |s| <= 19
    ensures Value(s) % TWO64 == Value(s) < TWO64
    ensures StaysLow(s) <==> Value(s) <= TWO63
  {
    ShortPrefixes(s);
    assert s[..|s|] == s;
    ModSmall(Value(s));
    forall k | 1 <= k <= |s| ensures Value(s[..k]) % TWO64 == Value(s[..k]) <= Value(s) {
      ModSmall(Value(s[..k]));
    }
    if s != [] && StaysLow(s) {
      assert Value(s[..|s|]) % TWO64 <= TWO63;
    }
  }

  lemma {:induction false} PrefixesBelow(s: string)
    requires AllDigits(s)
    ensures forall k :: 0 <= k <= |s| ==> Value(s[..k]) <= Value(s)
  {
    if s == [] {
    } else {
      var front := s[..|s| - 1];
      PrefixesBelow(front);
      forall k | 0 <= k <= |s| ensures Value(s[..k]) <= Value(s) {
        if k == |s| { assert s[..k] == s; } else { assert s[..k] == front[..k]; }
      }
    }
  }

  lemma FormatShape(n: int)
    ensures FormatInt(n) != []
    ensures n < 0 ==> FormatInt(n)[0] == '-' && Body(FormatInt(n)) == Digits(-n) && Digits(-n)[0] != '0'
    ensures n >= 0 ==> FormatInt(n)[0] != '-' && Body(FormatInt(n)) == Digits(n)
    ensures n > 0 ==> FormatInt(n)[0] != '0'
    ensures n == 0 ==> FormatInt(n) == "0"
    ensures IsInt64(n) ==> |Body(FormatInt(n))| <= 19
  {
    var m := if n < 0 then -n else n;
    assert IsDigit(Digits(m)[0]);
    if IsInt64(n) {
      Pow19();
      DigitsLength(m, 19);
    }
  }

  /** On 1 to 19 digits with no leading zero the accumulator is the number, up to 2^63. */
  lemma AccumulateShort(ds: string)
    requires |ds| <= 19 && AllDigits(ds)
    ensures Accumulate(ds) == if Value(ds) <= TWO63 then Some(Value(ds)) else None
  {
    AccumulateMeans(ds);
    ShortStaysLow(ds);
  }

  lemma AccumulateFormat(m: nat)
    requires 0 < m <= TWO63
    ensures Accumulate(Digits(m)) == Some(m)
  {
    Pow19();
    DigitsLength(m, 19);
    ValueOfDigits(m);
    AccumulateShort(Digits(m));
  }

  lemma ParsePositive(n: nat, r: nat)
    requires n > 0 && Accumulate(Digits(n)) == Some(r) && r < TWO63
    ensures ParseInt64(Digits(n)) == Some(r)
  {
    assert IsDigit(Digits(n)[0]);
  }

  lemma ParseNegative(n: nat)
    requires n > 0 && Accumulate(Digits(n)) == Some(n)
    ensures ParseInt64(['-'] + Digits(n)) == Some(0 - n)
  {
    var s := ['-'] + Digits(n);
    assert s[1..] == Digits(n) && s[1] == Digits(n)[0];
  }

  /** Printing then parsing gives the number back, for every int64. */
  lemma ParseOfFormat(n: int)
    requires IsInt64(n)
    ensures ParseInt64(FormatInt(n)) == Some(n)
  {
    if n > 0 {
      AccumulateFormat(n);
      ParsePositive(n, n);
    } else if n < 0 {
      AccumulateFormat(-n);
      ParseNegative(-n);
    } else {
      FormatShape(0);
    }
  }

  lemma ParsedInt64(s: string)
    requires ParseInt64(s).Some?
    ensures IsInt64(ParseInt64(s).value)
  {
    AccumulateMeans(Body(s));
  }

  lemma AcceptedIsFormat(s: string)
    requires |Body(s)| <= 19 && ParseInt64(s).Some? && s != "0"
    ensures IsInt64(ParseInt64(s).value) && s == FormatInt(ParseInt64(s).value)
  {
    var ds := Body(s);
    assert ds != [] && ds[0] != '0' && Accumulate(ds).Some?;
    AccumulateMeans(ds);
    AccumulateShort(ds);
    DigitsOfValue(ds);
    if s[0] == '-' { assert s == ['-'] + ds; }
  }

  /** On at most 19 digits the parser is exact: it accepts precisely the strings that
      FormatInt prints for an int64, and returns that number. */
  lemma ParseIsExact(s: string, n: int)
    requires |Body(s)| <= 19
    ensures ParseInt64(s) == Some(n) <==> IsInt64(n) && s == FormatInt(n)
  {
    if IsInt64(n) && s == FormatInt(n) {
      ParseOfFormat(n);
    }
    if ParseInt64(s) == Some(n) {
      if s == "0" { FormatShape(0); } else { AcceptedIsFormat(s); }
    }
  }

  /** Longer strings denote no int64, so an exact parser rejects them all.  This one
      still accepts those whose prefixes stay within 2^63 modulo 2^64, and returns the
      residue. */
  lemma LongStringsWrap(s: string)
    requires |Body(s)| >= 20
    ensures forall n :: IsInt64(n) ==> s != FormatInt(n)
    ensures ParseInt64(s).Some? <==>
            && Body(s)[0] != '0' && AllDigits(Body(s)) && StaysLow(Body(s))
            && (s[0] == '-' || Value(s) % TWO64 < TWO63)
    ensures ParseInt64(s).Some? ==>
            ParseInt64(s).value == if s[0] == '-' then 0 - Value(Body(s)) % TWO64 else Value(Body(s)) % TWO64
  {
    forall n | IsInt64(n) ensures s != FormatInt(n) { FormatShape(n); }
    AccumulateMeans(Body(s));
  }

  lemma AccumulateSnoc(s: string, v: nat, c: char)
    requires Accumulate(s) == Some(v) && IsDigit(c)
    ensures var w := (v * 10 + DigitOf(c)) % TWO64;
            Accumulate(s + [c]) == if w > TWO63 then None else Some(w)
  {
    assert (s + [c])[..|s|] == s;
  }

  lemma WrappedAccumulate(m: nat, d: nat, r: nat)
    requires 0 < m <= TWO63 && d < 10 && r <= TWO63 && 10 * m + d == r + TWO64
    ensures Accumulate(Digits(10 * m + d)) == Some(r)
  {
    hide Accumulate, Digits, DigitChar;
    AccumulateFormat(m);
    DigitsSnoc(m, d);
    var c := DigitChar(d);
    AccumulateSnoc(Digits(m), m, c);
    assert (m * 10 + DigitOf(c)) % TWO64 == r by {
      ModPlusMultiple(r, 1);
      ModSmall(r);
    }
  }

  /** A family of such strings: 2^64 + r, written out, is accepted and read as r, for
      every r below 2^63. */
  lemma WrappedFamily(r: nat)
    requires r < TWO63
    ensures ParseInt64(Digits(r + TWO64)) == Some(r)
  {
    var n := r + TWO64;
    WrappedAccumulate(n / 10, n % 10, r);
    ParsePositive(n, r);
  }

  // ------------------------------------------------------------- strconv.Atoi

  /** `strconv.Atoi`: an optional sign, at least one digit, in range. */
  function Atoi(s: string): Option<int> {
    var ds := if s != [] && (s[0] == '-' || s[0] == '+') then s[1..] else s;
    if ds == [] || !AllDigits(ds) then None
    else
      var n := if s[0] == '-' then 0 - Value(ds) else Value(ds);
      if IsInt64(n) then Some(n) else None
  }

  /** `strconv.ParseUint(s, 10, 64)`. */
  function ParseUint(s: string): Option<nat> {
    if s == [] || !AllDigits(s) || Value(s) >= TWO64 then None else Some(Value(s))
  }

  lemma AtoiOfFormat(n: int)
    requires IsInt64(n)
    ensures Atoi(FormatInt(n)) == Some(n)
  {
    FormatShape(n);
    ValueOfDigits(if n < 0 then -n else n);
    assert IsDigit(Digits(if n < 0 then -n else n)[0]);
  }

  lemma AtoiOfDigits(n: nat)
    requires n <= MAX64
    ensures Atoi(Digits(n)) == Some(n)
  {
    AtoiOfFormat(n);
  }

  lemma UintOfDigits(n: nat)
    requires n < TWO64
    ensures ParseUint(Digits(n)) == Some(n)
  {
    ValueOfDigits(n);
  }

  /** Atoi reads exactly an optional sign and then digits, leading zeros included, whose
      number fits 64 bits; and ParseUint the same without a sign. */
  lemma AtoiReads(sign: string, zeros: string, m: nat)
    requires sign in {"", "+", "-"} && forall i :: 0 <= i < |zeros| ==> zeros[i] == '0'
    ensures var n := if sign == "-" then 0 - m else m as int;
            Atoi(sign + (zeros + Digits(m))) == if IsInt64(n) then Some(n) else None
    ensures ParseUint(zeros + Digits(m)) == if m < TWO64 then Some(m) else None
  {
    hide Digits, Value;
    ZerosCountNothing(zeros, Digits(m));
    ValueOfDigits(m);
    AtoiSigned(sign, zeros + Digits(m));
  }

  lemma AtoiSigned(sign: string, ds: string)
    requires sign in {"", "+", "-"} && ds != [] && AllDigits(ds)
    ensures var n := if sign == "-" then 0 - Value(ds) else Value(ds) as int;
            Atoi(sign + ds) == if IsInt64(n) then Some(n) else None
  {
    hide Value;
    var s := sign + ds;
    assert IsDigit(ds[0]);
    if sign == "" { assert s == ds; } else { assert s[1..] == ds && s[0] == sign[0]; }
  }

  lemma {:induction false} ZerosCountNothing(zeros: string, ds: string)
    requires AllDigits(ds) && forall i :: 0 <= i < |zeros| ==> zeros[i] == '0'
    ensures AllDigits(zeros + ds) && Value(zeros + ds) == Value(ds)
    decreases |ds|
  {
    if ds == [] {
      assert zeros + ds == zeros;
      OnlyZeros(zeros);
    } else {
      ZerosCountNothing(zeros, ds[..|ds| - 1]);
      assert (zeros + ds)[..|zeros + ds| - 1] == zeros + ds[..|ds| - 1];
    }
  }

  lemma {:induction false} OnlyZeros(zeros: string)
    requires forall i :: 0 <= i < |zeros| ==> zeros[i] == '0'
    ensures AllDigits(zeros) && Value(zeros) == 0
  {
    if zeros != [] { OnlyZeros(zeros[..|zeros| - 1]); }
  }

  /** And nothing else: a text that they accept has only digits after its sign. */
  lemma AtoiAcceptsNumbers(s: string)
    ensures Atoi(s).Some? ==>
              s != [] && var ds := if s[0] in {'+', '-'} then s[1..] else s; ds != [] && AllDigits(ds)
    ensures ParseUint(s).Some? ==> s != [] && AllDigits(s)
  {
  }

  /** Machine arithmetic wraps: what is left differs from the exact result by a multiple of
      2^64. */
  lemma WrapIsModular(x: int)
    ensures IsInt64(Wrap(x)) && (x - Wrap(x)) % TWO64 == 0
  {
  }

  /** Numbers as they are written: one digit after the other, with a minus sign. */
  lemma Written(m: nat, d: nat)
    requires d < 10
    ensures Digits(d) == ["0123456789"[d]]
    ensures m > 0 ==> Digits(10 * m + d) == Digits(m) + Digits(d)
    ensures m > 0 ==> FormatInt(0 - m) == "-" + Digits(m)
    ensures FormatInt(m) == Digits(m)
  {
  }
}
