/**
 Capturing commands for the append-only file (lib/commands/aof.go): which commands are
 logged, the rewriting of relative deadlines, random pops and blocking pops into
 deterministic commands, and the theorem that replaying the log rebuilds the keyspace.

 The theorem is for a sequential run at a fixed clock.  Two rewrites are not faithful
 for deadlines near the end of the int64 range; the exact conditions are proved.
 */
module AofCapture {
  import opened Basics
  import opened Decimal
  import opened SetEncoding
  import opened Commands

  // ----------------------------------------------------------------- rewriting

  /** `expireAbsMs`: plain machine arithmetic, no saturation. */
  function AbsMs(now: int, u: Unit, v: int): int {
    match u
    case Ex => Wrap(now + v * 1000)
    case Px => Wrap(now + v)
    case ExAt => Wrap(v * 1000)
    case PxAt => v
  }

  predicate Relative(w: Word) {
    w.Time? && !w.u.PxAt?
  }

  /** SET's option tail with EX, PX and EXAT turned into PXAT. */
  function RewriteTail(now: int, tail: seq<string>): seq<string>
    decreases |tail|
  {
    if |tail| < 2 then tail
    else if Relative(WordOf(tail[0])) && ParseInt64(tail[1]).Some? then
      ["PXAT", FormatInt(AbsMs(now, WordOf(tail[0]).u, ParseInt64(tail[1]).value))] + RewriteTail(now, tail[2..])
    else [tail[0]] + RewriteTail(now, tail[1..])
  }

  /** The loop of the source: it walks the arguments one by one, and a rewritten number
      is looked at again as if it were an option. */
  method RewriteSetArgs(now: int, args: seq<string>) returns (argv: seq<string>)
    requires |args| >= 2
    ensures argv == args[..2] + RewriteTail(now, args[2..])
  {
    hide WordOf, ParseInt64, FormatInt, AbsMs, RewriteTail;
    argv := args;
    var i := 2;
    assert argv[..i] + RewriteTail(now, argv[i..]) == args[..2] + RewriteTail(now, args[2..]);
    while i + 1 < |argv|
      invariant 2 <= i <= |argv| == |args|
      invariant argv[..i] + RewriteTail(now, argv[i..]) == args[..2] + RewriteTail(now, args[2..])
    {
      var w := WordOf(argv[i]);
      var n := ParseInt64(argv[i + 1]);
      ghost var before := argv;
      if w.Time? && !w.u.PxAt? && n.Some? {
        var number := FormatInt(AbsMs(now, w.u, n.value));
        argv := argv[i := "PXAT"][i + 1 := number];
        RewrittenStep(now, before, argv, i, number);
      } else {
        KeptStep(now, argv, i);
      }
      i := i + 1;
    }
    ShortTail(now, argv[i..]);
    assert argv[..i] + argv[i..] == argv;
  }

  lemma ShortTail(now: int, tail: seq<string>)
    requires |tail| < 2
    ensures RewriteTail(now, tail) == tail
  {
  }

  lemma KeptStep(now: int, argv: seq<string>, i: nat)
    requires i + 1 < |argv| && !(Relative(WordOf(argv[i])) && ParseInt64(argv[i + 1]).Some?)
    ensures argv[..i] + RewriteTail(now, argv[i..]) == argv[..i + 1] + RewriteTail(now, argv[i + 1..])
  {
    var t := argv[i..];
    assert t[1..] == argv[i + 1..];
    assert argv[..i] + ([argv[i]] + RewriteTail(now, t[1..])) == (argv[..i] + [argv[i]]) + RewriteTail(now, t[1..]);
    assert argv[..i + 1] == argv[..i] + [argv[i]];
  }

  lemma TimeAhead(now: int, word: string, number: string, rest: seq<string>)
    requires Relative(WordOf(word)) && ParseInt64(number).Some?
    ensures RewriteTail(now, [word, number] + rest) ==
            ["PXAT", FormatInt(AbsMs(now, WordOf(word).u, ParseInt64(number).value))] + RewriteTail(now, rest)
  {
    hide WordOf, ParseInt64, FormatInt, AbsMs;
    var t := [word, number] + rest;
    assert t[0] == word && t[1] == number && t[2..] == rest;
  }

  lemma NumberAhead(now: int, number: string, rest: seq<string>)
    requires WordOf(number) == Other
    ensures RewriteTail(now, [number] + rest) == [number] + RewriteTail(now, rest)
  {
    hide WordOf, ParseInt64, FormatInt, AbsMs;
    assert ([number] + rest)[1..] == rest;
  }

  lemma RewrittenStep(now: int, before: seq<string>, argv: seq<string>, i: nat, number: string)
    requires i + 1 < |before| && Relative(WordOf(before[i])) && ParseInt64(before[i + 1]).Some?
    requires number == FormatInt(AbsMs(now, WordOf(before[i]).u, ParseInt64(before[i + 1]).value))
    requires argv == before[i := "PXAT"][i + 1 := number]
    ensures before[..i] + RewriteTail(now, before[i..]) == argv[..i + 1] + RewriteTail(now, argv[i + 1..])
  {
    hide WordOf, ParseInt64, FormatInt, AbsMs, RewriteTail;
    var rest := before[i + 2..];
    NumberIsNoWord(number);
    assert argv[i + 1..] == [number] + rest;
    NumberAhead(now, number, rest);
    assert before[i..] == [before[i], before[i + 1]] + rest;
    TimeAhead(now, before[i], before[i + 1], rest);
    assert argv[..i + 1] == before[..i] + ["PXAT"];
    assert before[..i] + (["PXAT", number] + RewriteTail(now, rest))
        == (before[..i] + ["PXAT"]) + ([number] + RewriteTail(now, rest));
  }

  predicate NumberLike(s: string) {
    s != [] && (s[0] == '-' || IsDigit(s[0]))
  }

  lemma ParsedIsNumberLike(s: string)
    requires ParseInt64(s).Some?
    ensures NumberLike(s)
  {
    if s[0] != '-' && s[0] != '0' { AccumulateMeans(s); }
  }

  lemma NumberLikeIsNoWord(s: string)
    requires NumberLike(s)
    ensures WordOf(s) == Other
  {
    assert Lower(s)[0] == s[0];
  }

  lemma NumberIsNoWord(s: string)
    requires NumberLike(s) || ParseInt64(s).Some? || exists n :: s == FormatInt(n)
    ensures WordOf(s) == Other
  {
    if ParseInt64(s).Some? {
      ParsedIsNumberLike(s);
    } else if exists n :: s == FormatInt(n) {
      var n :| s == FormatInt(n);
      assert IsDigit(Digits(if n < 0 then -n else n)[0]);
    }
    NumberLikeIsNoWord(s);
  }

  lemma PxAtIsWord()
    ensures WordOf("PXAT") == Time(PxAt)
  {
    assert Lower("PXAT") == "pxat";
  }

  // ------------------------------------------- the rewritten SET parses the same

  /** Every rewritten number is positive, as the parser of SET demands. */
  predicate AllPositive(now: int, tail: seq<string>)
    decreases |tail|
  {
    if |tail| < 2 then true
    else if Relative(WordOf(tail[0])) && ParseInt64(tail[1]).Some? then
      AbsMs(now, WordOf(tail[0]).u, ParseInt64(tail[1]).value) > 0 && AllPositive(now, tail[2..])
    else AllPositive(now, tail[1..])
  }

  /** The options with their expire option, if any, in absolute form. */
  function Absolute(now: int, o: SetOptions): SetOptions {
    if o.unit.None? then o
    else o.(unit := Some(PxAt), raw := AbsMs(now, o.unit.value, o.raw))
  }

  function Expected(now: int, tail: seq<string>, o: SetOptions): Result<SetOptions, Error> {
    if AllPositive(now, tail) then
      match ParseSet(tail, o)
      case Ok(o') => Ok(Absolute(now, o'))
      case Fail(e) => Fail(e)
    else Fail(InvalidExpire)
  }

  lemma {:induction false} RewriteParses(now: int, tail: seq<string>, o: SetOptions)
    requires ParseSet(tail, o).Ok?
    ensures ParseSet(RewriteTail(now, tail), Absolute(now, o)) == Expected(now, tail, o)
    decreases |tail|
  {
    if tail != [] {
      match WordOf(tail[0])
      case NX => RewriteKeeps(now, tail); RewriteParses(now, tail[1..], o.(nx := true));
      case XX => RewriteKeeps(now, tail); RewriteParses(now, tail[1..], o.(xx := true));
      case WGET => RewriteKeeps(now, tail); RewriteParses(now, tail[1..], o.(get := true));
      case KEEPTTL => RewriteKeeps(now, tail); RewriteParses(now, tail[1..], o.(keepttl := true));
      case Time(u) =>
        var o' := o.(unit := Some(u), raw := ParseInt64(tail[1]).value);
        RewriteParses(now, tail[2..], o');
        RewriteTime(now, tail, o, o');
    }
  }

  lemma RewriteKeeps(now: int, tail: seq<string>)
    requires tail != [] && !Relative(WordOf(tail[0]))
    ensures RewriteTail(now, tail) == [tail[0]] + RewriteTail(now, tail[1..])
    ensures RewriteTail(now, tail)[0] == tail[0] && RewriteTail(now, tail)[1..] == RewriteTail(now, tail[1..])
    ensures AllPositive(now, tail) == AllPositive(now, tail[1..])
  {
  }

  /** One expire option and its number. */
  lemma RewriteTime(now: int, tail: seq<string>, o: SetOptions, o': SetOptions)
    requires |tail| >= 2 && WordOf(tail[0]).Time? && ParseInt64(tail[1]).Some? && ParseSet(tail, o).Ok?
    requires o' == o.(unit := Some(WordOf(tail[0]).u), raw := ParseInt64(tail[1]).value)
    requires ParseSet(RewriteTail(now, tail[2..]), Absolute(now, o')) == Expected(now, tail[2..], o')
    ensures ParseSet(RewriteTail(now, tail), Absolute(now, o)) == Expected(now, tail, o)
  {
    hide FormatInt, ParseInt64, WordOf;
    var u, v := WordOf(tail[0]).u, ParseInt64(tail[1]).value;
    var abs := AbsMs(now, u, v);
    var rest := RewriteTail(now, tail[2..]);
    var word, number := if u.PxAt? then tail[0] else "PXAT", if u.PxAt? then tail[1] else FormatInt(abs);
    assert RewriteTail(now, tail) == [word, number] + rest by {
      if u.PxAt? {
        NumberIsNoWord(tail[1]);
        RewriteKeeps(now, tail);
        RewriteKeeps(now, tail[1..]);
        assert tail[1..][1..] == tail[2..];
        assert [tail[0]] + ([tail[1]] + rest) == [tail[0], tail[1]] + rest;
      }
    }
    assert AllPositive(now, tail) == (abs > 0 && AllPositive(now, tail[2..])) by {
      if u.PxAt? {
        NumberIsNoWord(tail[1]);
        RewriteKeeps(now, tail);
        RewriteKeeps(now, tail[1..]);
        assert tail[1..][1..] == tail[2..];
      }
    }
    PxAtIsWord();
    if !u.PxAt? { ParseOfFormat(abs); }
    ParsePair(word, number, abs, rest, Absolute(now, o));
  }

  lemma ParsePair(word: string, number: string, v: int, rest: seq<string>, o: SetOptions)
    requires WordOf(word) == Time(PxAt) && ParseInt64(number) == Some(v)
    requires !o.keepttl && (o.unit.None? || o.unit.value.PxAt?)
    ensures ParseSet([word, number] + rest, o) ==
            if v <= 0 then Fail(InvalidExpire) else ParseSet(rest, o.(unit := Some(PxAt), raw := v))
  {
    var t := [word, number] + rest;
    assert t[0] == word && t[1] == number && t[2..] == rest;
  }

  // ------------------------------------------------------------------ the record

  predicate IsWrite(v: Verb) {
    match v
    case GET => false case STRLEN => false case TTL => false case PTTL => false case TYPE => false
    case _ => true
  }

  /** `rewriteForPersist` for a one-key command, with the arguments after the key: the
      command to log, or None when nothing changed. */
  function KeyRecord(now: int, verb: Verb, args: seq<string>, reply: Reply): Option<(Verb, seq<string>)> {
    match verb
    case SPOP =>
      if reply.Blob? then Some((SREM, [reply.b]))
      else if reply.Arr? && reply.elems != [] then Some((SREM, reply.elems))
      else None
    case GETEX =>
      if !reply.Blob? || args == [] then None
      else if WordOf(args[0]).WPERSIST? then Some((PERSIST, []))
      else if |args| < 2 || ParseInt64(args[1]).None? || !WordOf(args[0]).Time? then None
      else Some((PEXPIREAT, [FormatInt(AbsMs(now, WordOf(args[0]).u, ParseInt64(args[1]).value))]))
    case SET => Some((SET, if args == [] then [] else args[..1] + RewriteTail(now, args[1..])))
    case _ =>
      if IsExpire(verb) then
        if reply != Int(1) || args == [] || ParseInt64(args[0]).None? then None
        else Some((PEXPIREAT,
                   [FormatInt(AbsMs(now, ExpireUnit(verb), ParseInt64(args[0]).value))]
                   + if |args| > 1 then [args[1]] else []))
      else Some((verb, args))
  }

  /** What one captured record does to the key when it is replayed. */
  function KeyReplay(now: int, verb: Verb, args: seq<string>, reply: Reply, cur: Option<Item>): Option<Item> {
    if !IsWrite(verb) || reply.Err? then cur
    else
      match KeyRecord(now, verb, args, reply)
      case None => cur
      case Some((v, a)) => KeyStep(now, v, a, [], cur).0
  }

  // -------------------------------------------------- commands that change nothing

  lemma FailedSetKeeps(now: int, args: seq<string>, cur: Option<Item>)
    ensures SetStep(now, args, cur).1.Err? ==> SetStep(now, args, cur).0 == cur
  {
  }

  lemma FailedGetExKeeps(now: int, args: seq<string>, cur: Option<Item>)
    ensures GetExStep(now, args, cur).1.Err? ==> GetExStep(now, args, cur).0 == cur
  {
  }

  lemma FailedKeeps(now: int, verb: Verb, args: seq<string>, pick: seq<string>, cur: Option<Item>)
    ensures var r := KeyStep(now, verb, args, pick, cur);
            r.1.Err? || !IsWrite(verb) ==> r.0 == cur
  {
    hide SetStep, GetExStep, ExpireStep, PushStep, PopStep, SAddStep;
    hide SRemStep, SPopStep, HSetStep, ZAddStep, StringStep;
    match verb
    case SET => FailedSetKeeps(now, args, cur);
    case GETEX => FailedGetExKeeps(now, args, cur);
    case EXPIRE => FailedExpireKeeps(now, Ex, args, cur);
    case PEXPIRE => FailedExpireKeeps(now, Px, args, cur);
    case EXPIREAT => FailedExpireKeeps(now, ExAt, args, cur);
    case PEXPIREAT => FailedExpireKeeps(now, PxAt, args, cur);
    case LPUSH => FailedListKeeps(true, false, args, cur);
    case RPUSH => FailedListKeeps(false, false, args, cur);
    case LPUSHX => FailedListKeeps(true, true, args, cur);
    case RPUSHX => FailedListKeeps(false, true, args, cur);
    case LPOP => FailedListKeeps(true, true, args, cur);
    case RPOP => FailedListKeeps(false, true, args, cur);
    case SADD => FailedSetOpsKeep(args, pick, cur);
    case SREM => FailedSetOpsKeep(args, pick, cur);
    case SPOP => FailedSetOpsKeep(args, pick, cur);
    case HSET => FailedMapOpsKeep(args, cur);
    case ZADD => FailedMapOpsKeep(args, cur);
    case _ => FailedStringKeeps(now, verb, args, cur);
  }

  lemma FailedExpireKeeps(now: int, u: Unit, args: seq<string>, cur: Option<Item>)
    ensures ExpireStep(now, u, args, cur).1.Err? ==> ExpireStep(now, u, args, cur).0 == cur
  {
    hide ParseInt64, ParseFlags, Deadline, Blocked;
  }

  lemma FailedListKeeps(head: bool, onlyIfExists: bool, args: seq<string>, cur: Option<Item>)
    ensures PushStep(head, onlyIfExists, args, cur).1.Err? ==> PushStep(head, onlyIfExists, args, cur).0 == cur
    ensures PopStep(head, args, cur).1.Err? ==> PopStep(head, args, cur).0 == cur
  {
    hide ParseInt64, Reverse;
  }

  lemma FailedSetOpsKeep(args: seq<string>, pick: seq<string>, cur: Option<Item>)
    ensures SAddStep(args, cur).1.Err? ==> SAddStep(args, cur).0 == cur
    ensures SRemStep(args, cur).1.Err? ==> SRemStep(args, cur).0 == cur
    ensures SPopStep(args, pick, cur).1.Err? ==> SPopStep(args, pick, cur).0 == cur
  {
    hide ParseInt64, ToSet, AddAll, RemoveAll, Without;
  }

  lemma FailedMapOpsKeep(args: seq<string>, cur: Option<Item>)
    ensures HSetStep(args, cur).1.Err? ==> HSetStep(args, cur).0 == cur
    ensures ZAddStep(args, cur).1.Err? ==> ZAddStep(args, cur).0 == cur
  {
    hide Pairs, Scores;
  }

  lemma FailedStringKeeps(now: int, verb: Verb, args: seq<string>, cur: Option<Item>)
    ensures var r := StringStep(now, verb, args, cur); r.1.Err? || !IsWrite(verb) ==> r.0 == cur
  {
    hide ParseInt64, FormatInt, TtlStep;
    if verb == TTL || verb == PTTL { TtlKeeps(now, verb == PTTL, cur); }
  }

  // ------------------------------------------------------------- SET, one record

  /** A logged SET, replayed: if every rewritten number is positive it does what the
      original did; otherwise the replay is refused and changes nothing. */
  lemma SetReplay(now: int, args: seq<string>, cur: Option<Item>)
    requires 0 <= now <= MAX64 && !SetStep(now, args, cur).1.Err?
    ensures SetStep(now, args[..1] + RewriteTail(now, args[1..]), cur).0 ==
            if AllPositive(now, args[1..]) then SetStep(now, args, cur).0 else cur
  {
    var tail := args[1..];
    var argv := args[..1] + RewriteTail(now, tail);
    assert argv[0] == args[0] && argv[1..] == RewriteTail(now, tail);
    var o := ParseSet(tail, NO_OPTIONS).value;
    RewriteParses(now, tail, NO_OPTIONS);
    if AllPositive(now, tail) {
      var o' := Absolute(now, o);
      assert ParseSet(argv[1..], NO_OPTIONS) == Ok(o');
      if o.unit.Some? {
        ParsedRawIsPositive(tail, NO_OPTIONS);
        ResolveAgrees(now, o.unit.value, o.raw);
      }
    }
  }

  lemma ResolveAgrees(now: int, u: Unit, v: int)
    requires 0 <= now <= MAX64 && 0 < v && Resolve(now, u, v).Ok?
    ensures Resolve(now, u, v).value == AbsMs(now, u, v)
  {
  }

  lemma {:induction false} ParsedRawIsPositive(tail: seq<string>, o: SetOptions)
    requires ParseSet(tail, o).Ok? && (o.unit.Some? ==> o.raw > 0)
    ensures ParseSet(tail, o).value.unit.Some? ==> ParseSet(tail, o).value.raw > 0
    decreases |tail|
  {
    if tail != [] {
      match WordOf(tail[0])
      case NX => ParsedRawIsPositive(tail[1..], o.(nx := true));
      case XX => ParsedRawIsPositive(tail[1..], o.(xx := true));
      case WGET => ParsedRawIsPositive(tail[1..], o.(get := true));
      case KEEPTTL => ParsedRawIsPositive(tail[1..], o.(keepttl := true));
      case Time(u) =>
        ParsedRawIsPositive(tail[2..], o.(unit := Some(u), raw := ParseInt64(tail[1]).value));
    }
  }

  // ----------------------------------------------------------- GETEX, one record

  /** A GETEX that reported a value either changes nothing, persists, or sets one
      deadline. */
  lemma GetExShape(args: seq<string>)
    requires ParseGetEx(args, NoChange).Ok? && args != []
    ensures var o := ParseGetEx(args, NoChange).value;
            if WordOf(args[0]).WPERSIST? then o.DropTtl?
            else WordOf(args[0]).Time? && |args| >= 2 && o == NewTtl(WordOf(args[0]).u, args[1])
  {
    if WordOf(args[0]).WPERSIST? {
      PersistStays(args[1..]);
    } else {
      NewTtlStays(args[2..], NewTtl(WordOf(args[0]).u, args[1]));
    }
  }

  lemma {:induction false} PersistStays(tail: seq<string>)
    requires ParseGetEx(tail, DropTtl).Ok?
    ensures ParseGetEx(tail, DropTtl).value.DropTtl?
    decreases |tail|
  {
    if tail != [] { PersistStays(tail[1..]); }
  }

  lemma NewTtlStays(tail: seq<string>, o: GetExOption)
    requires o.NewTtl? && ParseGetEx(tail, o).Ok?
    ensures tail == [] && ParseGetEx(tail, o).value == o
  {
  }

  lemma GetExReplay(now: int, args: seq<string>, cur: Option<Item>)
    requires 0 <= now <= MAX64 && !GetExStep(now, args, cur).1.Err?
    ensures KeyReplay(now, GETEX, args, GetExStep(now, args, cur).1, cur) == GetExStep(now, args, cur).0
  {
    hide WordOf, ParseInt64, FormatInt;
    if args != [] && cur.Some? {
      GetExShape(args);
      if !WordOf(args[0]).WPERSIST? {
        var u, v := WordOf(args[0]).u, ParseInt64(args[1]).value;
        ResolveAgrees(now, u, v);
        ParsedInt64(args[1]);
        ParseOfFormat(AbsMs(now, u, v));
        assert ParseFlags([FormatInt(AbsMs(now, u, v))][1..], Flags(false, false, false, false)).Ok?;
      }
    }
  }

  // ---------------------------------------------------------- EXPIRE, one record

  const TWO61: int := 0x2000_0000_0000_0000

  /** 125 times this is 1, modulo 2^61. */
  const INVERSE_125: int := 2066035336255469781

  predicate IsLucky(now: int, v: int) {
    now % 8 == 7 && v % TWO61 == (INVERSE_125 * ((MAX64 - now) / 8)) % TWO61
  }

  /** The handler's guard against overflow does not fire; or, for seconds from now, the
      product wraps round to the very deadline the handler saturates to.  That takes a
      clock of 7 modulo 8, and then a single residue of v modulo 2^61. */
  predicate DeadlineFits(now: int, u: Unit, v: int) {
    match u
    case Ex =>
      || v <= (MAX64 - now) / 1000
      || IsLucky(now, v)
    case ExAt => v <= MAX64 / 1000
    case _ => true
  }

  lemma ModShift(a: int, z: int)
    ensures (a + TWO61 * z) % TWO61 == a % TWO61
  {
    var q, r := a / TWO61, a % TWO61;
    assert a + TWO61 * z == TWO61 * (q + z) + r;
  }

  ghost predicate HitsMax(x: int) {
    exists k: int :: x == k * TWO64 + MAX64
  }

  lemma WrapsToMax(x: int)
    requires x >= 0
    ensures Wrap(x) == MAX64 <==> HitsMax(x)
  {
    var k := (x + TWO63) / TWO64;
    assert x + TWO63 == k * TWO64 + (x + TWO63) % TWO64;
    if Wrap(x) == MAX64 { assert x == k * TWO64 + MAX64; }
    if q: int :| x == q * TWO64 + MAX64 {
      assert x + TWO63 == q * TWO64 + (TWO64 - 1);
    }
  }

  lemma SolvedForward(v: int, k: int, w: int)
    requires 1000 * v == k * TWO64 + 8 * w
    ensures v == INVERSE_125 * w + TWO61 * (INVERSE_125 * k - 112 * v)
  {
    assert 125 * v == k * TWO61 + w;
    assert INVERSE_125 * 125 == 1 + 112 * TWO61;
  }

  lemma SolvedBack(v: int, w: int, t: int)
    requires v == INVERSE_125 * w + TWO61 * t
    ensures 1000 * v == (112 * w + 125 * t) * TWO64 + 8 * w
  {
    assert INVERSE_125 * 125 == 1 + 112 * TWO61;
    assert 125 * v == w + TWO61 * (112 * w + 125 * t);
  }

  lemma SameResidue(v: int, a: int)
    requires v % TWO61 == a % TWO61
    ensures v == a + TWO61 * (v / TWO61 - a / TWO61)
  {
  }

  lemma Remainder8(now: int, v: int, k: int)
    requires now + v * 1000 == k * TWO64 + MAX64
    ensures now % 8 == 7 && MAX64 - now == 8 * ((MAX64 - now) / 8)
  {
    assert MAX64 - now == 8 * (125 * v - k * TWO61);
  }

  lemma HitIsLucky(now: int, v: int, k: int)
    requires now + v * 1000 == k * TWO64 + MAX64
    ensures IsLucky(now, v)
  {
    var w := (MAX64 - now) / 8;
    Remainder8(now, v, k);
    SolvedForward(v, k, w);
    ModShift(INVERSE_125 * w, INVERSE_125 * k - 112 * v);
  }

  lemma LuckyHits(now: int, v: int)
    requires IsLucky(now, v)
    ensures HitsMax(now + v * 1000)
  {
    var w := (MAX64 - now) / 8;
    var t := v / TWO61 - (INVERSE_125 * w) / TWO61;
    SameResidue(v, INVERSE_125 * w);
    SolvedBack(v, w, t);
    Eighths(now);
    assert now + v * 1000 == (112 * w + 125 * t) * TWO64 + MAX64;
  }

  lemma Eighths(now: int)
    requires now % 8 == 7
    ensures MAX64 - now == 8 * ((MAX64 - now) / 8)
  {
  }

  /** now + 1000 v is MAX64 modulo 2^64: solved for v. */
  lemma LuckySeconds(now: int, v: int)
    requires 0 <= now <= MAX64 && v >= 0
    ensures Wrap(now + v * 1000) == MAX64 <==> IsLucky(now, v)
  {
    hide Wrap, IsLucky;
    WrapsToMax(now + v * 1000);
    if HitsMax(now + v * 1000) {
      var k: int :| now + v * 1000 == k * TWO64 + MAX64;
      HitIsLucky(now, v, k);
    }
    if IsLucky(now, v) { LuckyHits(now, v); }
  }

  /** The two computations of the deadline agree if and only if it fits. */
  lemma DeadlineAgrees(now: int, u: Unit, v: int)
    requires 0 <= now <= MAX64 && IsInt64(v)
    ensures Deadline(now, u, v) == AbsMs(now, u, v) <==> DeadlineFits(now, u, v)
  {
    hide Wrap, IsLucky;
    match u
    case Ex => if v > (MAX64 - now) / 1000 { LuckySeconds(now, v); }
    case ExAt => if v > MAX64 / 1000 { NoLuckyTimestamp(v); }
    case _ =>
  }

  /** A thousandfold is even, and MAX64 is odd. */
  lemma NoLuckyTimestamp(v: int)
    requires v >= 0
    ensures Wrap(v * 1000) != MAX64
  {
    hide Wrap;
    WrapsToMax(v * 1000);
    forall k: int ensures v * 1000 != k * TWO64 + MAX64 {
      OddIsNotEven(500 * v, k * TWO63 + 0x3FFF_FFFF_FFFF_FFFF);
    }
  }

  lemma OddIsNotEven(a: int, b: int)
    ensures 2 * a != 2 * b + 1
  {
  }

  lemma DeadlinesApart(now: int, u: Unit, v: int)
    requires 0 <= now <= MAX64 && IsInt64(v)
    ensures var at, abs := Deadline(now, u, v), AbsMs(now, u, v);
            IsInt64(abs) && (at == abs || (at == MAX64 && abs < MAX64))
  {
  }

  /** The first flag alone lets through whatever all the flags let through. */
  lemma {:induction false} FlagsGrow(tail: seq<string>, f: Flags)
    requires ParseFlags(tail, f).Ok?
    ensures var g := ParseFlags(tail, f).value;
            (f.nx ==> g.nx) && (f.xx ==> g.xx) && (f.gt ==> g.gt) && (f.lt ==> g.lt)
    decreases |tail|
  {
    if tail != [] {
      match WordOf(tail[0])
      case NX => FlagsGrow(tail[1..], f.(nx := true));
      case XX => FlagsGrow(tail[1..], f.(xx := true));
      case GT => FlagsGrow(tail[1..], f.(gt := true));
      case LT => FlagsGrow(tail[1..], f.(lt := true));
      case _ =>
    }
  }

  /** The flags that reach the log. */
  function LoggedFlags(tail: seq<string>): seq<string> {
    if tail == [] then [] else [tail[0]]
  }

  lemma LoggedFlagsParse(tail: seq<string>)
    requires ParseFlags(tail, Flags(false, false, false, false)).Ok?
    ensures var g := ParseFlags(LoggedFlags(tail), Flags(false, false, false, false));
            && g.Ok?
            && var all := ParseFlags(tail, Flags(false, false, false, false)).value;
               (g.value.nx ==> all.nx) && (g.value.xx ==> all.xx) && (g.value.gt ==> all.gt) && (g.value.lt ==> all.lt)
  {
    if tail != [] {
      var none := Flags(false, false, false, false);
      var one := LoggedFlags(tail);
      assert one[1..] == [];
      match WordOf(tail[0])
      case NX => FlagsGrow(tail[1..], none.(nx := true));
      case XX => FlagsGrow(tail[1..], none.(xx := true));
      case GT => FlagsGrow(tail[1..], none.(gt := true));
      case LT => FlagsGrow(tail[1..], none.(lt := true));
      case _ =>
    }
  }

  /** An applied deadline, replayed with a possibly different one and weaker flags: the
      key ends the same exactly when the deadline is the same. */
  lemma ExpireKeyAgrees(now: int, f: Flags, g: Flags, at: int, abs: int, cur: Option<Item>)
    requires ExpireKey(now, f, at, cur).1 == Int(1)
    requires (g.nx ==> f.nx) && (g.xx ==> f.xx) && (g.gt ==> f.gt) && (g.lt ==> f.lt)
    requires at == abs || (at == MAX64 && abs < MAX64 && now < MAX64)
    requires LiveOption(cur, now)
    ensures ExpireKey(now, g, abs, cur).0 == ExpireKey(now, f, at, cur).0 <==> at == abs
  {
  }

  /** The record of an applied EXPIRE is a PEXPIREAT with the first flag word. */
  lemma ExpireRecord(now: int, verb: Verb, args: seq<string>, cur: Option<Item>)
    requires IsExpire(verb) && args != [] && ParseInt64(args[0]).Some?
    ensures var argv := [FormatInt(AbsMs(now, ExpireUnit(verb), ParseInt64(args[0]).value))] + LoggedFlags(args[1..]);
            KeyReplay(now, verb, args, Int(1), cur) == ExpireStep(now, PxAt, argv, cur).0
  {
    hide WordOf, ParseInt64, FormatInt, ExpireStep, AbsMs;
  }

  lemma ExpireReplay(now: int, verb: Verb, args: seq<string>, cur: Option<Item>)
    requires 0 <= now < MAX64 && IsExpire(verb) && args != [] && ParseInt64(args[0]).Some?
    requires LiveOption(cur, now)
    requires ExpireStep(now, ExpireUnit(verb), args, cur).1 == Int(1)
    ensures var u, v := ExpireUnit(verb), ParseInt64(args[0]).value;
            KeyReplay(now, verb, args, Int(1), cur) == ExpireStep(now, u, args, cur).0
            <==> Deadline(now, u, v) == AbsMs(now, u, v)
  {
    hide KeyReplay, ParseInt64, FormatInt, AbsMs;
    ExpireRecord(now, verb, args, cur);
    ExpireUnitReplay(now, ExpireUnit(verb), args, cur);
  }

  lemma ExpireUnitReplay(now: int, u: Unit, args: seq<string>, cur: Option<Item>)
    requires 0 <= now < MAX64 && args != [] && ParseInt64(args[0]).Some? && LiveOption(cur, now)
    requires ExpireStep(now, u, args, cur).1 == Int(1)
    ensures var v := ParseInt64(args[0]).value;
            var argv := [FormatInt(AbsMs(now, u, v))] + LoggedFlags(args[1..]);
            ExpireStep(now, PxAt, argv, cur).0 == ExpireStep(now, u, args, cur).0
            <==> Deadline(now, u, v) == AbsMs(now, u, v)
  {
    hide WordOf, ParseInt64, FormatInt, ParseFlags, Wrap, LoggedFlags, ExpireKey, LiveOption, DeadlineFits;
    var v := ParseInt64(args[0]).value;
    var at, abs := Deadline(now, u, v), AbsMs(now, u, v);
    var none := Flags(false, false, false, false);
    var argv := [FormatInt(abs)] + LoggedFlags(args[1..]);
    LoggedFlagsParse(args[1..]);
    ParsedInt64(args[0]);
    DeadlinesApart(now, u, v);
    ParseOfFormat(abs);
    assert argv[1..] == LoggedFlags(args[1..]) && argv[0] == FormatInt(abs);
    ExpireKeyAgrees(now, ParseFlags(args[1..], none).value, ParseFlags(argv[1..], none).value, at, abs, cur);
  }

  // ------------------------------------------------------- every one-key command

  /** A parsed SET that leaves the key as it is: refused for its type or its deadline,
      blocked by NX or XX, overdue on a missing key, or storing what is already there. */
  predicate SetIsIdle(now: int, v: string, o: SetOptions, cur: Option<Item>) {
    || (o.get && !IsStr(cur))
    || (o.nx && cur.Some?)
    || (o.xx && cur.None?)
    || (match o.unit
        case None => cur == Some(Item(Str(v), if o.keepttl && cur.Some? then cur.value.at else 0))
        case Some(u) =>
          match Resolve(now, u, o.raw)
          case Fail(_) => true
          case Ok(at) =>
            if at <= now then cur.None?
            else cur == Some(Item(Str(v), if o.keepttl && cur.Some? then cur.value.at else at)))
  }

  /** Every deadline of the SET is positive once it is absolute, or its options do not
      parse, or it changes nothing. */
  predicate SetSafe(now: int, args: seq<string>, cur: Option<Item>) {
    || args == []
    || AllPositive(now, args[1..])
    || (match ParseSet(args[1..], NO_OPTIONS)
        case Fail(_) => true
        case Ok(o) => SetIsIdle(now, args[0], o, cur))
  }

  /** The EXPIRE is malformed, finds no key, is blocked by its flags, or its deadline
      fits. */
  predicate ExpireSafe(now: int, u: Unit, args: seq<string>, cur: Option<Item>) {
    || args == []
    || ParseInt64(args[0]).None?
    || cur.None?
    || (match ParseFlags(args[1..], Flags(false, false, false, false))
        case Fail(_) => true
        case Ok(f) =>
          var v := ParseInt64(args[0]).value;
          Blocked(f, cur.value.at, Deadline(now, u, v)) || DeadlineFits(now, u, v))
  }

  /** Replaying the record of this command rebuilds the key: the exact condition, on the
      arguments, the clock and the state of the key before the call. */
  predicate KeySafe(now: int, verb: Verb, args: seq<string>, cur: Option<Item>) {
    match verb
    case SET => SetSafe(now, args, cur)
    case EXPIRE => ExpireSafe(now, Ex, args, cur)
    case EXPIREAT => ExpireSafe(now, ExAt, args, cur)
    case _ => true
  }

  /** Removing the drawn members by name is removing them. */
  lemma SRemOfDraw(pick: seq<string>, cur: Option<Item>)
    requires pick != [] && cur.Some? && cur.value.value.Set? && ToSet(pick) <= cur.value.value.e.ms
    ensures SRemStep(pick, cur).0 == Kept(Set(Without(cur.value.value.e, ToSet(pick))), cur.value.at)
  {
    hide RemoveAll, Kept;
    RemoveAllExact(cur.value.value.e, pick);
  }

  lemma SPopReplay(now: int, args: seq<string>, pick: seq<string>, cur: Option<Item>)
    requires ValidPick(args, pick, cur) && !SPopStep(args, pick, cur).1.Err?
    ensures KeyReplay(now, SPOP, args, SPopStep(args, pick, cur).1, cur) == SPopStep(args, pick, cur).0
  {
    hide ParseInt64, SRemStep, Kept, Without, ToSet;
    if cur.Some? && pick != [] {
      SRemOfDraw(pick, cur);
      if args == [] { assert pick == [pick[0]]; }
    }
  }

  lemma IdleIsUnchanged(now: int, args: seq<string>, cur: Option<Item>)
    requires args != [] && ParseSet(args[1..], NO_OPTIONS).Ok?
    ensures SetStep(now, args, cur).0 == cur <==> SetIsIdle(now, args[0], ParseSet(args[1..], NO_OPTIONS).value, cur)
  {
    hide ParseSet, Resolve;
  }

  lemma SetExact(now: int, args: seq<string>, cur: Option<Item>)
    requires 0 <= now < MAX64
    ensures KeyReplay(now, SET, args, SetStep(now, args, cur).1, cur) == SetStep(now, args, cur).0
            <==> SetSafe(now, args, cur)
  {
    hide ParseSet, SetIsIdle, AllPositive, RewriteTail, SetStep;
    if SetStep(now, args, cur).1.Err? {
      FailedReplay(now, SET, args, SetStep(now, args, cur).1, cur);
      FailedSetKeeps(now, args, cur);
    } else {
      SetRuns(now, args, cur);
      SetReplay(now, args, cur);
    }
    if args != [] && ParseSet(args[1..], NO_OPTIONS).Ok? { IdleIsUnchanged(now, args, cur); }
  }

  lemma SetRuns(now: int, args: seq<string>, cur: Option<Item>)
    requires !SetStep(now, args, cur).1.Err?
    ensures args != [] && ParseSet(args[1..], NO_OPTIONS).Ok?
  {
  }

  lemma ExpireExact(now: int, verb: Verb, args: seq<string>, cur: Option<Item>)
    requires 0 <= now < MAX64 && IsExpire(verb) && LiveOption(cur, now)
    ensures var r := ExpireStep(now, ExpireUnit(verb), args, cur);
            KeyReplay(now, verb, args, r.1, cur) == r.0 <==> ExpireSafe(now, ExpireUnit(verb), args, cur)
  {
    hide ParseInt64, ParseFlags, FormatInt, Deadline, AbsMs, DeadlineFits, Blocked, KeyStep;
    var u := ExpireUnit(verb);
    var r := ExpireStep(now, u, args, cur);
    if r.1 == Int(1) {
      ExpireReplay(now, verb, args, cur);
      ParsedInt64(args[0]);
      DeadlineAgrees(now, u, ParseInt64(args[0]).value);
    }
  }

  lemma AlwaysFits(now: int, u: Unit, args: seq<string>, cur: Option<Item>)
    requires u.Px? || u.PxAt?
    ensures ExpireSafe(now, u, args, cur)
  {
  }

  /** One-key commands: the replayed record leaves the key as the command did if and
      only if the command is safe. */
  lemma KeyExact(now: int, verb: Verb, args: seq<string>, pick: seq<string>, cur: Option<Item>)
    requires 0 <= now < MAX64 && OneKey(verb) && LiveOption(cur, now)
    requires verb.SPOP? ==> ValidPick(args, pick, cur)
    ensures var r := KeyStep(now, verb, args, pick, cur);
            KeyReplay(now, verb, args, r.1, cur) == r.0 <==> KeySafe(now, verb, args, cur)
  {
    hide SetStep, GetExStep, ExpireStep, SPopStep, SAddStep, SRemStep;
    hide PushStep, PopStep, StringStep, HSetStep, ZAddStep;
    hide KeyReplay, KeyRecord, SetSafe, ExpireSafe, ValidPick;
    var r := KeyStep(now, verb, args, pick, cur);
    match verb
    case SET => SetExact(now, args, cur);
    case EXPIRE => ExpireExact(now, verb, args, cur);
    case EXPIREAT => ExpireExact(now, verb, args, cur);
    case PEXPIRE =>
      ExpireExact(now, verb, args, cur);
      AlwaysFits(now, Px, args, cur);
    case PEXPIREAT =>
      ExpireExact(now, verb, args, cur);
      AlwaysFits(now, PxAt, args, cur);
    case _ =>
      if r.1.Err? {
        FailedReplay(now, verb, args, r.1, cur);
        FailedKeeps(now, verb, args, pick, cur);
      } else if verb.GETEX? {
        GetExReplay(now, args, cur);
      } else if verb.SPOP? {
        SPopReplay(now, args, pick, cur);
      } else {
        PlainReplay(now, verb, args, pick, cur);
      }
  }

  lemma FailedReplay(now: int, verb: Verb, args: seq<string>, reply: Reply, cur: Option<Item>)
    requires reply.Err?
    ensures KeyReplay(now, verb, args, reply, cur) == cur
  {
  }

  /** Commands that are logged as they are, or not at all. */
  lemma PlainReplay(now: int, verb: Verb, args: seq<string>, pick: seq<string>, cur: Option<Item>)
    requires !verb.SET? && !verb.GETEX? && !verb.SPOP? && !IsExpire(verb)
    requires !KeyStep(now, verb, args, pick, cur).1.Err?
    ensures var r := KeyStep(now, verb, args, pick, cur); KeyReplay(now, verb, args, r.1, cur) == r.0
  {
    hide WordOf, SetStep, GetExStep, ExpireStep, SPopStep, SAddStep, SRemStep, PushStep;
    hide PopStep, StringStep, HSetStep, ZAddStep, ParseInt64, FormatInt;
    FailedKeeps(now, verb, args, pick, cur);
  }

  // ------------------------------------------------------------- the whole keyspace

  /** `capturePersist`: the record of one executed command, if any. */
  function Capture(now: int, c: Cmd, reply: Reply): Option<Cmd> {
    if !IsWrite(c.verb) || reply.Err? then None
    else
      match c.verb
      case BLPOP => if reply.KeyAndBlob? then Some(Cmd(LPOP, [reply.key], [])) else None
      case BRPOP => if reply.KeyAndBlob? then Some(Cmd(RPOP, [reply.key], [])) else None
      case BLMOVE => Some(Cmd(LMOVE, if |c.args| < 4 then c.args else c.args[..4], []))
      case BRPOPLPUSH => Some(Cmd(RPOPLPUSH, if |c.args| < 2 then c.args else c.args[..2], []))
      case _ =>
        if !OneKey(c.verb) || c.args == [] then Some(c)
        else
          match KeyRecord(now, c.verb, c.args[1..], reply)
          case None => None
          case Some((v, a)) => Some(Cmd(v, [c.args[0]] + a, []))
  }

  function ReplayOne(now: int, db: nat, record: Option<Cmd>, ks: Keys): Keys {
    if record.None? then ks else Exec(now, db, record.value, ks).0
  }

  /** The condition of the theorem, before the call: only SET, EXPIRE and EXPIREAT can
      fail it. */
  predicate Safe(now: int, db: nat, c: Cmd, ks: Keys) {
    OneKey(c.verb) && c.args != [] ==>
      KeySafe(now, c.verb, c.args[1..], At(ks, Slot(db, c.args[0])))
  }

  /** SPOP's draw is one it could have made. */
  predicate ValidDraw(db: nat, c: Cmd, ks: Keys) {
    c.verb.SPOP? && c.args != [] ==> ValidPick(c.args[1..], c.pick, At(ks, Slot(db, c.args[0])))
  }

  lemma PutAt(ks: Keys, k: Slot)
    ensures Put(ks, k, At(ks, k)) == ks
  {
  }

  lemma PutInjective(ks: Keys, k: Slot, a: Option<Item>, b: Option<Item>)
    ensures Put(ks, k, a) == Put(ks, k, b) <==> a == b
  {
    assert At(Put(ks, k, a), k) == a && At(Put(ks, k, b), k) == b;
  }

  lemma OneKeyExact(now: int, db: nat, c: Cmd, ks: Keys)
    requires 0 <= now < MAX64 && Live(ks, now) && OneKey(c.verb) && c.args != [] && ValidDraw(db, c, ks)
    ensures var r := Exec(now, db, c, ks);
            ReplayOne(now, db, Capture(now, c, r.1), ks) == r.0 <==> Safe(now, db, c, ks)
  {
    hide Capture, Exec, KeyStep, KeyReplay, ReplayOne, Put, KeySafe, OneKey, ValidPick;
    var k := Slot(db, c.args[0]);
    var cur, args := At(ks, k), c.args[1..];
    var r := KeyStep(now, c.verb, args, c.pick, cur);
    OneKeyExec(now, db, c, ks);
    KeyExact(now, c.verb, args, c.pick, cur);
    PutInjective(ks, k, KeyReplay(now, c.verb, args, r.1, cur), r.0);
    ReplayOneKey(now, db, c, ks, r.1);
  }

  lemma OneKeyExec(now: int, db: nat, c: Cmd, ks: Keys)
    requires OneKey(c.verb) && c.args != []
    ensures var k := Slot(db, c.args[0]);
            && Exec(now, db, c, ks).0 == Put(ks, k, KeyStep(now, c.verb, c.args[1..], c.pick, At(ks, k)).0)
            && Exec(now, db, c, ks).1 == KeyStep(now, c.verb, c.args[1..], c.pick, At(ks, k)).1
  {
    hide KeyStep, Put, DelAll, BPop, Move, MoveArgs;
  }

  lemma CaptureOneKey(now: int, c: Cmd, reply: Reply)
    requires OneKey(c.verb) && c.args != []
    ensures Capture(now, c, reply) ==
            if !IsWrite(c.verb) || reply.Err? then None
            else
              var rec := KeyRecord(now, c.verb, c.args[1..], reply);
              if rec.None? then None else Some(Cmd(rec.value.0, [c.args[0]] + rec.value.1, []))
  {
    hide KeyRecord;
  }

  lemma ReplayOneKey(now: int, db: nat, c: Cmd, ks: Keys, reply: Reply)
    requires OneKey(c.verb) && c.args != []
    ensures var k := Slot(db, c.args[0]);
            ReplayOne(now, db, Capture(now, c, reply), ks) ==
            Put(ks, k, KeyReplay(now, c.verb, c.args[1..], reply, At(ks, k)))
  {
    hide Capture, Exec, KeyStep, KeyRecord, Put, At, OneKey;
    PutAt(ks, Slot(db, c.args[0]));
    CaptureOneKey(now, c, reply);
    var rec := KeyRecord(now, c.verb, c.args[1..], reply);
    if rec.Some? {
      var argv := [c.args[0]] + rec.value.1;
      assert argv[0] == c.args[0] && argv[1..] == rec.value.1;
      RecordIsOneKey(now, c.verb, c.args[1..], reply);
      OneKeyExec(now, db, Cmd(rec.value.0, argv, []), ks);
    }
  }

  lemma RecordIsOneKey(now: int, verb: Verb, args: seq<string>, reply: Reply)
    requires OneKey(verb) && KeyRecord(now, verb, args, reply).Some?
    ensures OneKey(KeyRecord(now, verb, args, reply).value.0)
  {
  }

  lemma PlainPop(now: int, db: nat, head: bool, key: string, ks: Keys)
    ensures var k := Slot(db, key);
            Exec(now, db, Cmd(if head then LPOP else RPOP, [key], []), ks).0 ==
                Put(ks, k, PopStep(head, [], At(ks, k)).0)
  {
    hide Exec, PopStep, Put;
    assert [key][1..] == [];
    OneKeyExec(now, db, Cmd(if head then LPOP else RPOP, [key], []), ks);
  }

  /** A blocking pop that hit a key is the plain pop of that key. */
  lemma {:induction false} BPopReplay(now: int, db: nat, head: bool, keys: seq<string>, ks: Keys)
    ensures var r := BPop(ks, db, head, keys);
            if r.1.KeyAndBlob? then Exec(now, db, Cmd(if head then LPOP else RPOP, [r.1.key], []), ks).0 == r.0
            else r.0 == ks
    decreases |keys|
  {
    hide Exec, PopStep, Put;
    if keys != [] {
      var k := Slot(db, keys[0]);
      BPopReplay(now, db, head, keys[1..], ks);
      PlainPop(now, db, head, keys[0], ks);
    }
  }

  lemma MoveFailureKeeps(ks: Keys, db: nat, src: string, dst: string, fromHead: bool, toHead: bool)
    ensures var r := Move(ks, db, src, dst, fromHead, toHead); r.1.Err? ==> r.0 == ks
  {
  }

  lemma MoveArgsFailureKeeps(ks: Keys, db: nat, args: seq<string>)
    ensures var r := MoveArgs(ks, db, args); r.1.Err? ==> r.0 == ks
  {
    hide WordOf, Move;
    if |args| >= 4 {
      MoveFailureKeeps(ks, db, args[0], args[1], WordOf(args[2]).LEFT?, WordOf(args[3]).LEFT?);
    }
  }

  /** A multi-key command that is logged as it is, and changes nothing when it fails. */
  lemma LoggedAsIs(now: int, db: nat, c: Cmd, ks: Keys)
    requires c.verb in {DEL, LMOVE, RPOPLPUSH, FLUSHDB, FLUSHALL} || (OneKey(c.verb) && c.args == [])
    requires Exec(now, db, c, ks).1.Err? ==> Exec(now, db, c, ks).0 == ks
    ensures var r := Exec(now, db, c, ks); ReplayOne(now, db, Capture(now, c, r.1), ks) == r.0
  {
    hide BPop, Move, DelAll, MoveArgs, KeyStep, Put, KeyRecord, OtherDBs;
  }

  lemma MultiKeyExact(now: int, db: nat, c: Cmd, ks: Keys)
    requires !OneKey(c.verb) || c.args == []
    ensures var r := Exec(now, db, c, ks);
            ReplayOne(now, db, Capture(now, c, r.1), ks) == r.0
  {
    hide BPop, Move, DelAll, MoveArgs, KeyStep, Put, KeyRecord, OtherDBs, ReplayOne, Capture;
    match c.verb
    case BLPOP => BlockingPopExact(now, db, true, c, ks);
    case BRPOP => BlockingPopExact(now, db, false, c, ks);
    case DEL =>
      if c.args != [] { DelRepliesInt(ks, db, c.args); }
      LoggedAsIs(now, db, c, ks);
    case LMOVE =>
      MoveArgsFailureKeeps(ks, db, c.args);
      LoggedAsIs(now, db, c, ks);
    case BLMOVE => BlockingMoveExact(now, db, c, ks);
    case RPOPLPUSH =>
      if |c.args| == 2 { MoveFailureKeeps(ks, db, c.args[0], c.args[1], false, true); }
      LoggedAsIs(now, db, c, ks);
    case BRPOPLPUSH => BlockingMoveExact(now, db, c, ks);
    case _ => LoggedAsIs(now, db, c, ks);
  }

  lemma BlockingPopExact(now: int, db: nat, head: bool, c: Cmd, ks: Keys)
    requires c.verb == if head then BLPOP else BRPOP
    ensures var r := Exec(now, db, c, ks); ReplayOne(now, db, Capture(now, c, r.1), ks) == r.0
  {
    hide BPop, Move, DelAll, MoveArgs, KeyStep, Put, KeyRecord, OtherDBs;
    if |c.args| >= 2 { BPopReplay(now, db, head, c.args[..|c.args| - 1], ks); }
  }

  lemma BlockingMoveExact(now: int, db: nat, c: Cmd, ks: Keys)
    requires c.verb.BLMOVE? || c.verb.BRPOPLPUSH?
    ensures var r := Exec(now, db, c, ks); ReplayOne(now, db, Capture(now, c, r.1), ks) == r.0
  {
    if c.verb.BLMOVE? { BlockingLMoveExact(now, db, c, ks); } else { BlockingRPopExact(now, db, c, ks); }
  }

  lemma BlockingLMoveExact(now: int, db: nat, c: Cmd, ks: Keys)
    requires c.verb.BLMOVE?
    ensures var r := Exec(now, db, c, ks); ReplayOne(now, db, Capture(now, c, r.1), ks) == r.0
  {
    hide BPop, Move, DelAll, MoveArgs, KeyStep, Put, KeyRecord, OtherDBs, OneKey;
    if |c.args| == 5 { MoveArgsFailureKeeps(ks, db, c.args[..4]); }
  }

  lemma BlockingRPopExact(now: int, db: nat, c: Cmd, ks: Keys)
    requires c.verb.BRPOPLPUSH?
    ensures var r := Exec(now, db, c, ks); ReplayOne(now, db, Capture(now, c, r.1), ks) == r.0
  {
    hide BPop, Move, DelAll, MoveArgs, KeyStep, Put, KeyRecord, OtherDBs, OneKey;
    if |c.args| == 3 { MoveFailureKeeps(ks, db, c.args[0], c.args[1], false, true); }
  }

  lemma DelRepliesInt(ks: Keys, db: nat, keys: seq<string>)
    ensures DelAll(ks, db, keys).1.Int?
  {
  }

  /** The exact condition for every command: replaying what was captured leaves the
      keyspace the command left if and only if the command is safe: a condition on its
      arguments, the clock and the key before the call. */
  lemma CaptureIsExact(now: int, db: nat, c: Cmd, ks: Keys)
    requires 0 <= now < MAX64 && Live(ks, now) && ValidDraw(db, c, ks)
    ensures var r := Exec(now, db, c, ks);
            ReplayOne(now, db, Capture(now, c, r.1), ks) == r.0 <==> Safe(now, db, c, ks)
  {
    if OneKey(c.verb) && c.args != [] {
      OneKeyExact(now, db, c, ks);
    } else {
      MultiKeyExact(now, db, c, ks);
    }
  }

  // -------------------------------------------------------------------- whole runs

  /** A command as one connection, on its logical DB, issued it. */
  datatype Issued = Issued(db: nat, cmd: Cmd)

  function RunAll(now: int, cs: seq<Issued>, ks: Keys): Keys
    decreases |cs|
  {
    if cs == [] then ks else RunAll(now, cs[1..], Exec(now, cs[0].db, cs[0].cmd, ks).0)
  }

  /** The log of a run: the records of its commands, in order. */
  function CaptureAll(now: int, cs: seq<Issued>, ks: Keys): seq<Issued>
    decreases |cs|
  {
    if cs == [] then []
    else
      var (ks', reply) := Exec(now, cs[0].db, cs[0].cmd, ks);
      var rec := Capture(now, cs[0].cmd, reply);
      (if rec.None? then [] else [Issued(cs[0].db, rec.value)]) + CaptureAll(now, cs[1..], ks')
  }

  predicate AllSafe(now: int, cs: seq<Issued>, ks: Keys)
    decreases |cs|
  {
    cs == [] ||
    (&& ValidDraw(cs[0].db, cs[0].cmd, ks) && Safe(now, cs[0].db, cs[0].cmd, ks)
     && AllSafe(now, cs[1..], Exec(now, cs[0].db, cs[0].cmd, ks).0))
  }

  /** Replaying the log of a safe run, from the keyspace the run started in, ends in
      the keyspace the run ended in. */
  lemma {:induction false} LogRebuildsKeyspace(now: int, cs: seq<Issued>, ks: Keys)
    requires 0 <= now < MAX64 && Live(ks, now) && AllSafe(now, cs, ks)
    ensures RunAll(now, CaptureAll(now, cs, ks), ks) == RunAll(now, cs, ks)
    decreases |cs|
  {
    if cs != [] {
      var c := cs[0];
      var (ks', reply) := Exec(now, c.db, c.cmd, ks);
      var rec := Capture(now, c.cmd, reply);
      CaptureIsExact(now, c.db, c.cmd, ks);
      ExecStaysLive(now, c.db, c.cmd, ks);
      LogRebuildsKeyspace(now, cs[1..], ks');
      var rest := CaptureAll(now, cs[1..], ks');
      var log := CaptureAll(now, cs, ks);
      if rec.None? {
        assert log == rest;
      } else {
        assert log[0] == Issued(c.db, rec.value) && log[1..] == rest;
      }
    }
  }

  // --------------------------------------------------- a condition on the text alone

  /** The numbers of EX, PX and EXAT options are within reach of the clock. */
  predicate ModestTail(now: int, tail: seq<string>)
    decreases |tail|
  {
    if |tail| < 2 then true
    else if Relative(WordOf(tail[0])) && ParseInt64(tail[1]).Some? then
      ParseInt64(tail[1]).value <= (MAX64 - now) / 1000 && ModestTail(now, tail[2..])
    else ModestTail(now, tail[1..])
  }

  predicate Modest(now: int, c: Cmd) {
    match c.verb
    case SET => |c.args| >= 2 ==> ModestTail(now, c.args[2..])
    case EXPIRE => |c.args| >= 2 && ParseInt64(c.args[1]).Some? ==> ParseInt64(c.args[1]).value <= (MAX64 - now) / 1000
    case EXPIREAT => |c.args| >= 2 && ParseInt64(c.args[1]).Some? ==> ParseInt64(c.args[1]).value <= MAX64 / 1000
    case _ => true
  }

  lemma {:induction false} ModestIsPositive(now: int, tail: seq<string>, o: SetOptions)
    requires 0 <= now < MAX64 && ModestTail(now, tail) && ParseSet(tail, o).Ok?
    ensures AllPositive(now, tail)
    decreases |tail|
  {
    if |tail| >= 2 {
      match WordOf(tail[0])
      case NX => ModestIsPositive(now, tail[1..], o.(nx := true));
      case XX => ModestIsPositive(now, tail[1..], o.(xx := true));
      case WGET => ModestIsPositive(now, tail[1..], o.(get := true));
      case KEEPTTL => ModestIsPositive(now, tail[1..], o.(keepttl := true));
      case Time(u) =>
        if u.PxAt? {
          NumberIsNoWord(tail[1]);
          assert tail[1..][1..] == tail[2..];
        }
        ModestIsPositive(now, tail[2..], o.(unit := Some(u), raw := ParseInt64(tail[1]).value));
        ModestAbs(now, u, ParseInt64(tail[1]).value);
    }
  }

  lemma ModestAbs(now: int, u: Unit, v: int)
    requires 0 <= now < MAX64 && 0 < v
    ensures v <= (MAX64 - now) / 1000 ==> AbsMs(now, u, v) > 0
  {
  }

  /** Commands whose numbers stay within reach of the clock are always safe. */
  lemma ModestIsSafe(now: int, db: nat, c: Cmd, ks: Keys)
    requires 0 <= now < MAX64 && Modest(now, c)
    ensures Safe(now, db, c, ks)
  {
    hide ParseSet, ParseInt64, AllPositive, ModestTail, SetIsIdle, Blocked, Deadline, ParseFlags;
    if OneKey(c.verb) && c.args != [] {
      var args := c.args[1..];
      if c.verb.SET? && args != [] {
        assert args[1..] == c.args[2..];
        if ParseSet(args[1..], NO_OPTIONS).Ok? {
          ModestIsPositive(now, args[1..], NO_OPTIONS);
        }
      } else if args != [] {
        assert args[0] == c.args[1];
      }
    }
  }

  // ------------------------------------------------------------- two unsafe commands

  /** EXPIRE with the largest int64: the live key gets the latest deadline, but the
      record says one second ago, and its replay deletes the key. */
  lemma ExpireCanLoseAKey(now: int, v: string)
    requires 1000 < now < MAX64
    ensures var args, cur := [FormatInt(MAX64)], Some(Item(Str(v), 0));
            && KeyStep(now, EXPIRE, args, [], cur) == (Some(Item(Str(v), MAX64)), Int(1))
            && KeyReplay(now, EXPIRE, args, Int(1), cur) == None
  {
    hide WordOf, ParseInt64, FormatInt, ParseFlags;
    var n, abs := FormatInt(MAX64), AbsMs(now, Ex, MAX64);
    SaturatedExpire(now, n, v);
    SaturatedAbs(now);
    PastDeadlineDeletes(now, abs, Item(Str(v), 0));
    assert KeyRecord(now, EXPIRE, [n], Int(1)).value.1 == [FormatInt(abs)];
  }

  lemma SaturatedAbs(now: int)
    requires 1000 < now < MAX64
    ensures AbsMs(now, Ex, MAX64) == now - 1000
  {
  }

  lemma SaturatedExpire(now: int, n: string, v: string)
    requires 1000 < now < MAX64 && n == FormatInt(MAX64)
    ensures ParseInt64(n) == Some(MAX64)
    ensures ExpireStep(now, Ex, [n], Some(Item(Str(v), 0))) == (Some(Item(Str(v), MAX64)), Int(1))
  {
    hide WordOf, ParseInt64, FormatInt;
    ParseOfFormat(MAX64);
    assert [n][1..] == [];
  }

  lemma PastDeadlineDeletes(now: int, abs: int, item: Item)
    requires IsInt64(abs) && abs <= now
    ensures KeyStep(now, PEXPIREAT, [FormatInt(abs)], [], Some(item)).0 == None
  {
    ParseOfFormat(abs);
    assert [FormatInt(abs)][1..] == [];
  }

  /** SET with PX and the largest int64: the deadline wraps into the past, so the old
      value is deleted; the record carries a negative PXAT, is refused at replay, and
      the old value survives. */
  lemma SetCanLeaveAKey(now: int, v: string, w: string)
    requires 0 < now < MAX64
    ensures var args, cur := [w, "PX", FormatInt(MAX64)], Some(Item(Str(v), 0));
            && KeyStep(now, SET, args, [], cur) == (None, OK)
            && KeyReplay(now, SET, args, OK, cur) == cur
  {
    hide WordOf, ParseInt64, FormatInt;
    var n := FormatInt(MAX64);
    var args, cur := [w, "PX", n], Some(Item(Str(v), 0));
    PxParses(n, MAX64);
    assert args[1..] == ["PX", n];
    assert AbsMs(now, Px, MAX64) < 0;
    SetReplay(now, args, cur);
  }

  lemma PxParses(n: string, v: int)
    requires n == FormatInt(v) && IsInt64(v) && v > 0
    ensures WordOf("PX") == Time(Px) && ParseInt64(n) == Some(v)
    ensures ParseSet(["PX", n], NO_OPTIONS) == Ok(NO_OPTIONS.(unit := Some(Px), raw := v))
  {
    assert Lower("PX") == "px";
    ParseOfFormat(v);
    assert ["PX", n][2..] == [];
  }
}
