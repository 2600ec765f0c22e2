/**
 What the command handlers do to the keyspace (lib/commands/strings.go, keys.go,
 list.go, set.go, block.go), at the level of values and deadlines.  A command that
 touches one key is a function of that key's state alone (`KeyStep`); the others act on
 the whole map (`Exec`).  The clock is an input, and every deadline in the keyspace is
 later than it (`Live`), so passive expiry never fires inside a command.
 */
module Commands {
  import opened Basics
  import opened Decimal
  import opened SetEncoding

  datatype Value =
    | Str(s: string)
    | List(xs: seq<string>)
    | Set(e: SetValue)
    | Hash(fields: map<string, string>)
    | ZSet(scores: map<string, int>)

  /** `at` is the deadline in ms, 0 for none. */
  datatype Item = Item(value: Value, at: int)

  type Keys = map<Slot, Item>

  datatype Verb =
    // one key, strings and expiry
    | GET | SET | GETSET | GETDEL | GETEX | INCR | DECR | INCRBY | DECRBY | APPEND | STRLEN
    | EXPIRE | PEXPIRE | EXPIREAT | PEXPIREAT | PERSIST | TTL | PTTL | TYPE
    // one key, collections
    | LPUSH | RPUSH | LPUSHX | RPUSHX | LPOP | RPOP | SADD | SREM | SPOP | HSET | ZADD
    // several keys, or whole DBs
    | DEL | BLPOP | BRPOP | LMOVE | RPOPLPUSH | BLMOVE | BRPOPLPUSH | FLUSHDB | FLUSHALL

  /** A command line: the resolved name and the arguments after it.  `pick` is the
      random choice of SPOP and means nothing elsewhere. */
  datatype Cmd = Cmd(verb: Verb, args: seq<string>, pick: seq<string>)

  datatype Error = Arity | Syntax | NotInt | NotFloat | Overflow | InvalidExpire | WrongType | NotPositive
      | Incompatible

  datatype Reply =
    | OK | Nil | Int(n: int) | Blob(b: string) | Status(name: string)
    | Arr(elems: seq<string>) | KeyAndBlob(key: string, b: string) | Err(e: Error)

  type KeyResult = (Option<Item>, Reply)

  // --------------------------------------------------------------- option words

  datatype Unit = Ex | Px | ExAt | PxAt

  datatype Word = NX | XX | WGET | KEEPTTL | Time(u: Unit) | WPERSIST | GT | LT | LEFT | RIGHT | Other

  function LowerChar(c: char): char {
    if 'A' <= c <= 'Z' then c + 32 as char else c
  }

  function Lower(s: string): string {
    seq(|s|, i requires 0 <= i < |s| => LowerChar(s[i]))
  }

  function WordOf(s: string): Word {
    var w := Lower(s);
    if w == "nx" then NX else if w == "xx" then XX else if w == "get" then WGET
    else if w == "keepttl" then KEEPTTL
    else if w == "ex" then Time(Ex) else if w == "px" then Time(Px)
    else if w == "exat" then Time(ExAt) else if w == "pxat" then Time(PxAt)
    else if w == "persist" then WPERSIST else if w == "gt" then GT else if w == "lt" then LT
    else if w == "left" then LEFT else if w == "right" then RIGHT
    else Other
  }

  // ------------------------------------------------------------------------ SET

  datatype SetOptions = SetOptions(nx: bool, xx: bool, get: bool, keepttl: bool, unit: Option<Unit>, raw: int)

  const NO_OPTIONS := SetOptions(false, false, false, false, None, 0)

  /** `parseSetOptions`: the option tail, from the options seen so far. */
  function ParseSet(tail: seq<string>, o: SetOptions): Result<SetOptions, Error>
    decreases |tail|
  {
    if tail == [] then Ok(o)
    else
      match WordOf(tail[0])
      case NX => if o.xx then Fail(Syntax) else ParseSet(tail[1..], o.(nx := true))
      case XX => if o.nx then Fail(Syntax) else ParseSet(tail[1..], o.(xx := true))
      case WGET => ParseSet(tail[1..], o.(get := true))
      case KEEPTTL => if o.unit.Some? then Fail(Syntax) else ParseSet(tail[1..], o.(keepttl := true))
      case Time(u) =>
        if o.keepttl || (o.unit.Some? && o.unit.value != u) || |tail| < 2 then Fail(Syntax)
        else
          var v := ParseInt64(tail[1]);
          if v.None? then Fail(NotInt)
          else if v.value <= 0 then Fail(InvalidExpire)
          else ParseSet(tail[2..], o.(unit := Some(u), raw := v.value))
      case _ => Fail(Syntax)
  }

  /** `resolveExpire`: the absolute deadline of an expire option. */
  function Resolve(now: int, u: Unit, v: int): Result<int, Error> {
    match u
    case Ex => if v > (MAX64 - now) / 1000 then Fail(InvalidExpire) else Ok(now + v * 1000)
    case Px => Ok(Wrap(now + v))
    case ExAt => if v > MAX64 / 1000 then Fail(InvalidExpire) else Ok(v * 1000)
    case PxAt => Ok(v)
  }

  predicate IsStr(cur: Option<Item>) {
    cur.None? || cur.value.value.Str?
  }

  /** The shard task of cmdSet, with options parsed and the deadline resolved (0 when
      there is no expire option). */
  function SetKey(now: int, v: string, o: SetOptions, at: int, cur: Option<Item>): KeyResult {
    if o.get && !IsStr(cur) then (cur, Err(WrongType))
    else
      var blocked := (o.nx && cur.Some?) || (o.xx && cur.None?);
      var next :=
        if blocked then cur
        else if o.unit.Some? && at <= now then None
        else if o.keepttl && cur.Some? then Some(Item(Str(v), cur.value.at))
        else Some(Item(Str(v), at));
      var reply :=
        if o.get && cur.Some? then Blob(cur.value.value.s)
        else if o.get || blocked then Nil
        else OK;
      (next, reply)
  }

  function SetStep(now: int, args: seq<string>, cur: Option<Item>): KeyResult {
    if |args| < 1 then (cur, Err(Arity))
    else
      match ParseSet(args[1..], NO_OPTIONS)
      case Fail(e) => (cur, Err(e))
      case Ok(o) =>
        if o.unit.None? then SetKey(now, args[0], o, 0, cur)
        else
          match Resolve(now, o.unit.value, o.raw)
          case Fail(e) => (cur, Err(e))
          case Ok(at) => SetKey(now, args[0], o, at, cur)
  }

  // ---------------------------------------------------------------------- GETEX

  datatype GetExOption = NoChange | DropTtl | NewTtl(u: Unit, raw: string)

  /** The option loop of cmdGetEx. */
  function ParseGetEx(tail: seq<string>, o: GetExOption): Result<GetExOption, Error>
    decreases |tail|
  {
    if tail == [] then Ok(o)
    else
      match WordOf(tail[0])
      case WPERSIST => if o.NewTtl? then Fail(Syntax) else ParseGetEx(tail[1..], DropTtl)
      case Time(u) =>
        if !o.NoChange? || |tail| < 2 then Fail(Syntax)
        else ParseGetEx(tail[2..], NewTtl(u, tail[1]))
      case _ => Fail(Syntax)
  }

  function GetExStep(now: int, args: seq<string>, cur: Option<Item>): KeyResult {
    match ParseGetEx(args, NoChange)
    case Fail(e) => (cur, Err(e))
    case Ok(o) =>
      if cur.None? then (cur, Nil)
      else if !IsStr(cur) then (cur, Err(WrongType))
      else
        var reply := Blob(cur.value.value.s);
        match o
        case NoChange => (cur, reply)
        case DropTtl => (Some(cur.value.(at := 0)), reply)
        case NewTtl(u, raw) =>
          var v := ParseInt64(raw);
          if v.None? then (cur, Err(NotInt))
          else if v.value <= 0 then (cur, Err(InvalidExpire))
          else
            match Resolve(now, u, v.value)
            case Fail(e) => (cur, Err(e))
            case Ok(at) => (if at <= now then None else Some(cur.value.(at := at)), reply)
  }

  // --------------------------------------------------------------------- EXPIRE

  datatype Flags = Flags(nx: bool, xx: bool, gt: bool, lt: bool)

  function ParseFlags(tail: seq<string>, f: Flags): Result<Flags, Error>
    decreases |tail|
  {
    if tail == [] then Ok(f)
    else
      match WordOf(tail[0])
      case NX => if f.xx || f.gt || f.lt then Fail(Incompatible) else ParseFlags(tail[1..], f.(nx := true))
      case XX => if f.nx then Fail(Incompatible) else ParseFlags(tail[1..], f.(xx := true))
      case GT => if f.nx || f.lt then Fail(Incompatible) else ParseFlags(tail[1..], f.(gt := true))
      case LT => if f.nx || f.gt then Fail(Incompatible) else ParseFlags(tail[1..], f.(lt := true))
      case _ => Fail(Syntax)
  }

  /** The deadline expireCommon computes: it saturates where seconds would overflow. */
  function Deadline(now: int, u: Unit, v: int): int {
    match u
    case Ex => if v > (MAX64 - now) / 1000 then MAX64 else Wrap(now + v * 1000)
    case Px => Wrap(now + v)
    case ExAt => if v > MAX64 / 1000 then MAX64 else Wrap(v * 1000)
    case PxAt => v
  }

  predicate Blocked(f: Flags, cur: int, at: int) {
    || (f.nx && cur != 0)
    || (f.xx && cur == 0)
    || (f.gt && (cur == 0 || at <= cur))
    || (f.lt && cur != 0 && at >= cur)
  }

  /** The shard task of expireCommon. */
  function ExpireKey(now: int, f: Flags, at: int, cur: Option<Item>): KeyResult {
    if cur.None? || Blocked(f, cur.value.at, at) then (cur, Int(0))
    else (if at <= now then None else Some(cur.value.(at := at)), Int(1))
  }

  function ExpireStep(now: int, u: Unit, args: seq<string>, cur: Option<Item>): KeyResult {
    if |args| < 1 then (cur, Err(Arity))
    else
      var v := ParseInt64(args[0]);
      if v.None? then (cur, Err(NotInt))
      else
        match ParseFlags(args[1..], Flags(false, false, false, false))
        case Fail(e) => (cur, Err(e))
        case Ok(f) => ExpireKey(now, f, Deadline(now, u, v.value), cur)
  }

  function ExpireUnit(v: Verb): Unit
    requires IsExpire(v)
  {
    match v
    case EXPIRE => Ex case PEXPIRE => Px case EXPIREAT => ExAt case PEXPIREAT => PxAt
  }

  predicate IsExpire(v: Verb) {
    v.EXPIRE? || v.PEXPIRE? || v.EXPIREAT? || v.PEXPIREAT?
  }

  // ------------------------------------------------------- other string commands

  function IncrStep(delta: int, cur: Option<Item>): KeyResult {
    if !IsStr(cur) then (cur, Err(WrongType))
    else
      var n := if cur.None? then Some(0) else ParseInt64(cur.value.value.s);
      if n.None? then (cur, Err(NotInt))
      else if !IsInt64(n.value + delta) then (cur, Err(Overflow))
      else
        var v := Str(FormatInt(n.value + delta));
        (Some(if cur.None? then Item(v, 0) else cur.value.(value := v)), Int(n.value + delta))
  }

  function IncrByStep(negate: bool, args: seq<string>, cur: Option<Item>): KeyResult {
    if |args| < 1 then (cur, Err(Arity))
    else
      var v := ParseInt64(args[0]);
      if v.None? then (cur, Err(NotInt))
      else if negate && v.value == -TWO63 then (cur, Err(Overflow))
      else IncrStep(if negate then -v.value else v.value, cur)
  }

  function AppendStep(args: seq<string>, cur: Option<Item>): KeyResult {
    if |args| < 1 then (cur, Err(Arity))
    else if !IsStr(cur) then (cur, Err(WrongType))
    else if cur.None? then (Some(Item(Str(args[0]), 0)), Int(|args[0]|))
    else
      var s := cur.value.value.s + args[0];
      (Some(cur.value.(value := Str(s))), Int(|s|))
  }

  function TtlStep(now: int, ms: bool, cur: Option<Item>): KeyResult {
    if cur.None? then (cur, Int(-2))
    else if cur.value.at == 0 then (cur, Int(-1))
    else
      var rem := if cur.value.at < now then 0 else cur.value.at - now;
      (cur, Int(if ms then rem else (rem + 500) / 1000))
  }

  function TypeName(v: Value): string {
    match v
    case Str(_) => "string" case List(_) => "list" case Set(_) => "set" case Hash(_) => "hash" case ZSet(_) => "zset"
  }

  function StringStep(now: int, verb: Verb, args: seq<string>, cur: Option<Item>): KeyResult {
    match verb
    case GET => if !IsStr(cur) then (cur, Err(WrongType)) else (cur, if cur.None? then Nil else Blob(cur.value.value.s))
    case STRLEN =>
      if !IsStr(cur) then (cur, Err(WrongType)) else (cur, Int(if cur.None? then 0 else |cur.value.value.s|))
    case GETSET =>
      if |args| < 1 then (cur, Err(Arity))
      else if !IsStr(cur) then (cur, Err(WrongType))
      else (Some(Item(Str(args[0]), 0)), if cur.None? then Nil else Blob(cur.value.value.s))
    case GETDEL =>
      if !IsStr(cur) then (cur, Err(WrongType)) else (None, if cur.None? then Nil else Blob(cur.value.value.s))
    case APPEND => AppendStep(args, cur)
    case INCR => IncrStep(1, cur)
    case DECR => IncrStep(-1, cur)
    case INCRBY => IncrByStep(false, args, cur)
    case DECRBY => IncrByStep(true, args, cur)
    case PERSIST =>
      if cur.None? || cur.value.at == 0 then (cur, Int(0)) else (Some(cur.value.(at := 0)), Int(1))
    case TTL => TtlStep(now, false, cur)
    case PTTL => TtlStep(now, true, cur)
    case TYPE => (cur, Status(if cur.None? then "none" else TypeName(cur.value.value)))
    case _ => (cur, Err(Syntax))
  }

  // ---------------------------------------------------------------- collections

  function Reverse(xs: seq<string>): seq<string> {
    if xs == [] then [] else Reverse(xs[1..]) + [xs[0]]
  }

  lemma {:induction false} ReverseLength(xs: seq<string>)
    ensures |Reverse(xs)| == |xs|
  {
    if xs != [] { ReverseLength(xs[1..]); }
  }

  /** An emptied collection takes its key with it. */
  function Kept(v: Value, at: int): Option<Item> {
    if v == List([]) || (v.Set? && v.e.ms == {}) then None else Some(Item(v, at))
  }

  function PushStep(head: bool, onlyIfExists: bool, vs: seq<string>, cur: Option<Item>): KeyResult {
    if vs == [] then (cur, Err(Arity))
    else if cur.Some? && !cur.value.value.List? then (cur, Err(WrongType))
    else if cur.None? && onlyIfExists then (cur, Int(0))
    else
      var xs := if cur.None? then [] else cur.value.value.xs;
      var ys := if head then Reverse(vs) + xs else xs + vs;
      (Some(Item(List(ys), if cur.None? then 0 else cur.value.at)), Int(|ys|))
  }

  function Min(a: int, b: int): int { if a < b then a else b }

  /** The n elements popped from one end, in pop order, and the rest. */
  function Popped(head: bool, n: nat, xs: seq<string>): (seq<string>, seq<string>)
    requires n <= |xs|
  {
    if head then (xs[..n], xs[n..]) else (Reverse(xs[|xs| - n..]), xs[..|xs| - n])
  }

  function PopStep(head: bool, args: seq<string>, cur: Option<Item>): KeyResult {
    if |args| > 1 then (cur, Err(Arity))
    else
      var count := if args == [] then Some(1) else ParseInt64(args[0]);
      if count.None? || count.value < 0 then (cur, Err(NotPositive))
      else if cur.None? then (cur, Nil)
      else if !cur.value.value.List? then (cur, Err(WrongType))
      else if count.value == 0 then (cur, Arr([]))
      else
        var xs := cur.value.value.xs;
        var (out, rest) := Popped(head, Min(count.value, |xs|), xs);
        (Kept(List(rest), cur.value.at),
         if args == [] && out != [] then Blob(out[0]) else Arr(out))
  }

  function SAddStep(ms: seq<string>, cur: Option<Item>): KeyResult {
    if ms == [] then (cur, Err(Arity))
    else if cur.Some? && !cur.value.value.Set? then (cur, Err(WrongType))
    else
      var had := if cur.None? then FRESH else cur.value.value.e;
      var got := AddAll(had, ms);
      (Some(Item(Set(got), if cur.None? then 0 else cur.value.at)), Int(|got.ms| - |had.ms|))
  }

  function SRemStep(ms: seq<string>, cur: Option<Item>): KeyResult {
    if ms == [] then (cur, Err(Arity))
    else if cur.None? then (cur, Int(0))
    else if !cur.value.value.Set? then (cur, Err(WrongType))
    else
      var had := cur.value.value.e;
      var rest := RemoveAll(had, ms);
      (Kept(Set(rest), cur.value.at), Int(|had.ms| - |rest.ms|))
  }

  /** The set without some of its members. */
  function Without(e: SetValue, gone: set<string>): SetValue {
    RemoveStaysSound(e, gone);
    Encoded(e.isInt, e.ms - gone)
  }

  /** SPOP with the members it draws given: some members, no member twice, as many as
      asked for and no more than there are. */
  function SPopStep(args: seq<string>, pick: seq<string>, cur: Option<Item>): KeyResult {
    if |args| > 1 then (cur, Err(Arity))
    else
      var count := if args == [] then Some(1) else ParseInt64(args[0]);
      if count.None? || count.value < 0 then (cur, Err(NotPositive))
      else if cur.None? then (cur, if args == [] then Nil else Arr([]))
      else if !cur.value.value.Set? then (cur, Err(WrongType))
      else
        var rest := Without(cur.value.value.e, ToSet(pick));
        (if pick == [] then cur else Kept(Set(rest), cur.value.at),
         if args == [] && pick != [] then Blob(pick[0]) else Arr(pick))
  }

  /** The draw is one SPOP could have made. */
  predicate ValidPick(args: seq<string>, pick: seq<string>, cur: Option<Item>) {
    && ToSet(pick) <= (if cur.Some? && cur.value.value.Set? then cur.value.value.e.ms else {})
    && (args == [] ==> |pick| <= 1)
  }

  function Pairs(args: seq<string>): map<string, string>
    decreases |args|
  {
    if |args| < 2 then map[] else Pairs(args[..|args| - 2])[args[|args| - 2] := args[|args| - 1]]
  }

  function HSetStep(args: seq<string>, cur: Option<Item>): KeyResult {
    if |args| < 2 || |args| % 2 != 0 then (cur, Err(Arity))
    else if cur.Some? && !cur.value.value.Hash? then (cur, Err(WrongType))
    else
      var had := if cur.None? then map[] else cur.value.value.fields;
      var got := had + Pairs(args);
      (Some(Item(Hash(got), if cur.None? then 0 else cur.value.at)), Int(|got| - |had|))
  }

  /** Score/member pairs, the later ones winning; None when a score does not parse. */
  function Scores(args: seq<string>): Option<map<string, int>>
    decreases |args|
  {
    if |args| < 2 then Some(map[])
    else
      var before, score := Scores(args[..|args| - 2]), ParseInt64(args[|args| - 2]);
      if before.None? || score.None? then None else Some(before.value[args[|args| - 1] := score.value])
  }

  function ZAddStep(args: seq<string>, cur: Option<Item>): KeyResult {
    if |args| < 2 || |args| % 2 != 0 then (cur, Err(Arity))
    else if Scores(args).None? then (cur, Err(NotFloat))
    else if cur.Some? && !cur.value.value.ZSet? then (cur, Err(WrongType))
    else
      var had := if cur.None? then map[] else cur.value.value.scores;
      var got := had + Scores(args).value;
      (Some(Item(ZSet(got), if cur.None? then 0 else cur.value.at)), Int(|got| - |had|))
  }

  // ------------------------------------------------------------- one-key commands

  predicate OneKey(verb: Verb) {
    match verb
    case DEL => false case BLPOP => false case BRPOP => false case LMOVE => false case RPOPLPUSH => false
    case BLMOVE => false case BRPOPLPUSH => false case FLUSHDB => false case FLUSHALL => false
    case _ => true
  }

  /** A one-key command: what it makes of the key's state, and its reply. */
  function KeyStep(now: int, verb: Verb, args: seq<string>, pick: seq<string>, cur: Option<Item>): KeyResult {
    match verb
    case SET => SetStep(now, args, cur)
    case GETEX => GetExStep(now, args, cur)
    case EXPIRE => ExpireStep(now, Ex, args, cur)
    case PEXPIRE => ExpireStep(now, Px, args, cur)
    case EXPIREAT => ExpireStep(now, ExAt, args, cur)
    case PEXPIREAT => ExpireStep(now, PxAt, args, cur)
    case LPUSH => PushStep(true, false, args, cur)
    case RPUSH => PushStep(false, false, args, cur)
    case LPUSHX => PushStep(true, true, args, cur)
    case RPUSHX => PushStep(false, true, args, cur)
    case LPOP => PopStep(true, args, cur)
    case RPOP => PopStep(false, args, cur)
    case SADD => SAddStep(args, cur)
    case SREM => SRemStep(args, cur)
    case SPOP => SPopStep(args, pick, cur)
    case HSET => HSetStep(args, cur)
    case ZADD => ZAddStep(args, cur)
    case _ => StringStep(now, verb, args, cur)
  }

  // --------------------------------------------------------- multi-key commands

  function DelAll(ks: Keys, db: nat, keys: seq<string>): (Keys, Reply)
    decreases |keys|
  {
    if keys == [] then (ks, Int(0))
    else
      var k := Slot(db, keys[0]);
      var (rest, r) := DelAll(ks - {k}, db, keys[1..]);
      (rest, Int((if r.Int? then r.n else 0) + if k in ks then 1 else 0))
  }

  /** The scan of BLPOP and BRPOP: keys in argument order, a missing key is skipped, a
      key of another type ends the scan with an error; with every key empty the command
      times out. */
  function BPop(ks: Keys, db: nat, head: bool, keys: seq<string>): (Keys, Reply)
    decreases |keys|
  {
    if keys == [] then (ks, Nil)
    else
      var k := Slot(db, keys[0]);
      if k !in ks then BPop(ks, db, head, keys[1..])
      else
        var r := PopStep(head, [], Some(ks[k]));
        if r.1.Blob? then (Put(ks, k, r.0), KeyAndBlob(keys[0], r.1.b))
        else (ks, if r.1.Err? then r.1 else Nil)
  }

  /** lmoveCmd, in a run with no concurrent command. */
  function Move(ks: Keys, db: nat, src: string, dst: string, fromHead: bool, toHead: bool): (Keys, Reply) {
    var s, d := Slot(db, src), Slot(db, dst);
    if s !in ks then (ks, Nil)
    else if !ks[s].value.List? then (ks, Err(WrongType))
    else if d in ks && !ks[d].value.List? then (ks, Err(WrongType))
    else
      var r := PopStep(fromHead, [], Some(ks[s]));
      if !r.1.Blob? then (ks, Nil)
      else if s == d then
        var rest := if r.0.None? then [] else if r.0.value.value.List? then r.0.value.value.xs else [];
        (ks[s := Item(List(if toHead then [r.1.b] + rest else rest + [r.1.b]), ks[s].at)], Blob(r.1.b))
      else
        var pushed := PushStep(toHead, false, [r.1.b], At(ks, d));
        (Put(Put(ks, d, pushed.0), s, r.0), Blob(r.1.b))
  }

  /** LMOVE and BLMOVE share their argument parse. */
  function MoveArgs(ks: Keys, db: nat, args: seq<string>): (Keys, Reply) {
    if |args| < 4 then (ks, Err(Arity))
    else
      var from, to := WordOf(args[2]), WordOf(args[3]);
      if !(from.LEFT? || from.RIGHT?) || !(to.LEFT? || to.RIGHT?) then (ks, Err(Syntax))
      else Move(ks, db, args[0], args[1], from.LEFT?, to.LEFT?)
  }

  function OtherDBs(ks: Keys, db: nat): Keys {
    map k | k in ks && k.db != db :: ks[k]
  }

  /** One command on the whole keyspace, as the connection on logical DB `db` runs it. */
  function Exec(now: int, db: nat, c: Cmd, ks: Keys): (Keys, Reply) {
    var args := c.args;
    match c.verb
    case FLUSHDB => (OtherDBs(ks, db), OK)
    case FLUSHALL => (map[], OK)
    case DEL => if args == [] then (ks, Err(Arity)) else DelAll(ks, db, args)
    case BLPOP => if |args| < 2 then (ks, Err(Arity)) else BPop(ks, db, true, args[..|args| - 1])
    case BRPOP => if |args| < 2 then (ks, Err(Arity)) else BPop(ks, db, false, args[..|args| - 1])
    case LMOVE => if |args| != 4 then (ks, Err(Arity)) else MoveArgs(ks, db, args)
    case BLMOVE => if |args| != 5 then (ks, Err(Arity)) else MoveArgs(ks, db, args[..4])
    case RPOPLPUSH => if |args| != 2 then (ks, Err(Arity)) else Move(ks, db, args[0], args[1], false, true)
    case BRPOPLPUSH => if |args| != 3 then (ks, Err(Arity)) else Move(ks, db, args[0], args[1], false, true)
    case _ =>
      if args == [] then (ks, Err(Arity))
      else
        var k := Slot(db, args[0]);
        var (v, r) := KeyStep(now, c.verb, args[1..], c.pick, At(ks, k));
        (Put(ks, k, v), r)
  }

  // ------------------------------------------------------------------- liveness

  /** No deadline, or an int64 later than the clock. */
  predicate LiveItem(i: Item, now: int) {
    i.at == 0 || now < i.at <= MAX64
  }

  ghost predicate Live(ks: Keys, now: int) {
    forall k :: k in ks ==> LiveItem(ks[k], now)
  }

  predicate LiveOption(o: Option<Item>, now: int) {
    o.Some? ==> LiveItem(o.value, now)
  }

  lemma {:induction false} RawIsInt64(tail: seq<string>, o: SetOptions)
    requires ParseSet(tail, o).Ok? && IsInt64(o.raw)
    ensures IsInt64(ParseSet(tail, o).value.raw)
    decreases |tail|
  {
    if tail != [] {
      match WordOf(tail[0])
      case NX => RawIsInt64(tail[1..], o.(nx := true));
      case XX => RawIsInt64(tail[1..], o.(xx := true));
      case WGET => RawIsInt64(tail[1..], o.(get := true));
      case KEEPTTL => RawIsInt64(tail[1..], o.(keepttl := true));
      case Time(u) =>
        ParsedInt64(tail[1]);
        RawIsInt64(tail[2..], o.(unit := Some(u), raw := ParseInt64(tail[1]).value));
    }
  }

  lemma SetStaysLive(now: int, args: seq<string>, cur: Option<Item>)
    requires LiveOption(cur, now)
    ensures LiveOption(SetStep(now, args, cur).0, now)
  {
    if |args| >= 1 && ParseSet(args[1..], NO_OPTIONS).Ok? {
      RawIsInt64(args[1..], NO_OPTIONS);
    }
  }

  lemma GetExStaysLive(now: int, args: seq<string>, cur: Option<Item>)
    requires LiveOption(cur, now)
    ensures LiveOption(GetExStep(now, args, cur).0, now)
  {
    var o := ParseGetEx(args, NoChange);
    if o.Ok? && o.value.NewTtl? && ParseInt64(o.value.raw).Some? { ParsedInt64(o.value.raw); }
  }

  lemma ExpireStaysLive(now: int, u: Unit, args: seq<string>, cur: Option<Item>)
    requires LiveOption(cur, now)
    ensures LiveOption(ExpireStep(now, u, args, cur).0, now)
  {
    if |args| >= 1 && ParseInt64(args[0]).Some? { ParsedInt64(args[0]); }
  }

  /** A one-key command leaves no overdue deadline. */
  lemma KeyStaysLive(now: int, verb: Verb, args: seq<string>, pick: seq<string>, cur: Option<Item>)
    requires LiveOption(cur, now)
    ensures LiveOption(KeyStep(now, verb, args, pick, cur).0, now)
  {
    hide SetStep, GetExStep, ExpireStep, PushStep, PopStep, SAddStep, SRemStep;
    hide SPopStep, HSetStep, ZAddStep, StringStep, LiveOption;
    match verb
    case SET => SetStaysLive(now, args, cur);
    case GETEX => GetExStaysLive(now, args, cur);
    case EXPIRE => ExpireStaysLive(now, Ex, args, cur);
    case PEXPIRE => ExpireStaysLive(now, Px, args, cur);
    case EXPIREAT => ExpireStaysLive(now, ExAt, args, cur);
    case PEXPIREAT => ExpireStaysLive(now, PxAt, args, cur);
    case LPUSH => PushStaysLive(now, true, false, args, cur);
    case RPUSH => PushStaysLive(now, false, false, args, cur);
    case LPUSHX => PushStaysLive(now, true, true, args, cur);
    case RPUSHX => PushStaysLive(now, false, true, args, cur);
    case LPOP => PopStaysLive(now, true, args, pick, cur);
    case RPOP => PopStaysLive(now, false, args, pick, cur);
    case SPOP => PopStaysLive(now, false, args, pick, cur);
    case SADD => AddStaysLive(now, args, cur);
    case SREM => AddStaysLive(now, args, cur);
    case HSET => AddStaysLive(now, args, cur);
    case ZADD => AddStaysLive(now, args, cur);
    case _ => StringStaysLive(now, verb, args, cur);
  }

  lemma PushStaysLive(now: int, head: bool, onlyIfExists: bool, vs: seq<string>, cur: Option<Item>)
    requires LiveOption(cur, now)
    ensures LiveOption(PushStep(head, onlyIfExists, vs, cur).0, now)
  {
    hide Reverse;
  }

  lemma PopStaysLive(now: int, head: bool, args: seq<string>, pick: seq<string>, cur: Option<Item>)
    requires LiveOption(cur, now)
    ensures LiveOption(PopStep(head, args, cur).0, now) && LiveOption(SPopStep(args, pick, cur).0, now)
  {
    hide ParseInt64, Reverse, ToSet, Without;
  }

  lemma AddStaysLive(now: int, args: seq<string>, cur: Option<Item>)
    requires LiveOption(cur, now)
    ensures LiveOption(SAddStep(args, cur).0, now) && LiveOption(SRemStep(args, cur).0, now)
    ensures LiveOption(HSetStep(args, cur).0, now) && LiveOption(ZAddStep(args, cur).0, now)
  {
    hide Pairs, Scores, AddAll, RemoveAll;
  }

  lemma StringStaysLive(now: int, verb: Verb, args: seq<string>, cur: Option<Item>)
    requires LiveOption(cur, now)
    ensures LiveOption(StringStep(now, verb, args, cur).0, now)
  {
    hide ParseInt64, FormatInt, TtlStep;
    if verb == TTL || verb == PTTL { TtlKeeps(now, verb == PTTL, cur); }
  }

  lemma TtlKeeps(now: int, ms: bool, cur: Option<Item>)
    ensures TtlStep(now, ms, cur).0 == cur
  {
  }

  lemma PutStaysLive(now: int, ks: Keys, k: Slot, v: Option<Item>)
    requires Live(ks, now) && LiveOption(v, now)
    ensures Live(Put(ks, k, v), now)
  {
  }

  lemma {:induction false} DelStaysLive(now: int, ks: Keys, db: nat, keys: seq<string>)
    requires Live(ks, now)
    ensures Live(DelAll(ks, db, keys).0, now)
    decreases |keys|
  {
    if keys != [] { DelStaysLive(now, ks - {Slot(db, keys[0])}, db, keys[1..]); }
  }

  lemma {:induction false} BPopStaysLive(now: int, ks: Keys, db: nat, head: bool, keys: seq<string>)
    requires Live(ks, now)
    ensures Live(BPop(ks, db, head, keys).0, now)
    decreases |keys|
  {
    if keys != [] { BPopStaysLive(now, ks, db, head, keys[1..]); }
  }

  lemma MoveStaysLive(now: int, ks: Keys, db: nat, src: string, dst: string, fromHead: bool, toHead: bool)
    requires Live(ks, now)
    ensures Live(Move(ks, db, src, dst, fromHead, toHead).0, now)
  {
    var s, d := Slot(db, src), Slot(db, dst);
    if s in ks && ks[s].value.List? && s != d {
      var r := PopStep(fromHead, [], Some(ks[s]));
      if r.1.Blob? {
        var pushed := PushStep(toHead, false, [r.1.b], At(ks, d));
        KeyStaysLive(now, if fromHead then LPOP else RPOP, [], [], Some(ks[s]));
        KeyStaysLive(now, if toHead then LPUSH else RPUSH, [r.1.b], [], At(ks, d));
        PutStaysLive(now, ks, d, pushed.0);
        PutStaysLive(now, Put(ks, d, pushed.0), s, r.0);
      }
    }
  }

  lemma ExecStaysLive(now: int, db: nat, c: Cmd, ks: Keys)
    requires Live(ks, now)
    ensures Live(Exec(now, db, c, ks).0, now)
  {
    hide WordOf, BPop, Move, DelAll, MoveArgs, ParseInt64, KeyStep, Put;
    var args := c.args;
    match c.verb
    case FLUSHDB =>
    case FLUSHALL =>
    case DEL => DelStaysLive(now, ks, db, args);
    case BLPOP => if |args| >= 2 { BPopStaysLive(now, ks, db, true, args[..|args| - 1]); }
    case BRPOP => if |args| >= 2 { BPopStaysLive(now, ks, db, false, args[..|args| - 1]); }
    case LMOVE => MoveArgsStaysLive(now, ks, db, args);
    case BLMOVE => if |args| == 5 { MoveArgsStaysLive(now, ks, db, args[..4]); }
    case RPOPLPUSH => if |args| == 2 { MoveStaysLive(now, ks, db, args[0], args[1], false, true); }
    case BRPOPLPUSH => if |args| == 3 { MoveStaysLive(now, ks, db, args[0], args[1], false, true); }
    case _ => OneKeyStaysLive(now, db, c, ks);
  }

  lemma MoveArgsStaysLive(now: int, ks: Keys, db: nat, args: seq<string>)
    requires Live(ks, now)
    ensures Live(MoveArgs(ks, db, args).0, now)
  {
    if |args| >= 4 {
      MoveStaysLive(now, ks, db, args[0], args[1], WordOf(args[2]).LEFT?, WordOf(args[3]).LEFT?);
    }
  }

  lemma OneKeyStaysLive(now: int, db: nat, c: Cmd, ks: Keys)
    requires Live(ks, now) && OneKey(c.verb)
    ensures Live(Exec(now, db, c, ks).0, now)
  {
    if c.args != [] {
      var k := Slot(db, c.args[0]);
      KeyStaysLive(now, c.verb, c.args[1..], c.pick, At(ks, k));
      PutStaysLive(now, ks, k, KeyStep(now, c.verb, c.args[1..], c.pick, At(ks, k)).0);
    }
  }
}
