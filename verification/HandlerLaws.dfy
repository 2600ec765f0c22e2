/**
 What each command leaves and answers (lib/commands/strings.go, keys.go, list.go, set.go,
 hash.go, zset.go, block.go), stated from what the key held: texts, numbers, lists read by
 index, sets, and maps.  The laws are about the verbs as the server dispatches them.
 */
module HandlerLaws {
  import opened Basics
  import opened Decimal
  import opened SetEncoding
  import opened Commands
  import opened CommandLaws

  // ---------------------------------------------------------------------------- texts

  function TextOf(cur: Option<Item>): string
    requires IsStr(cur)
  {
    if cur.None? then "" else cur.value.value.s
  }

  function DeadlineOf(cur: Option<Item>): int {
    if cur.None? then 0 else cur.value.at
  }

  /** The answer of GET. */
  predicate AnswersText(r: Reply, cur: Option<Item>)
    requires IsStr(cur)
  {
    r == if cur.None? then Nil else Blob(TextOf(cur))
  }

  /** On a key that is missing or holds a text: GET, STRLEN and GETDEL answer from it, GETSET
      answers with it and puts another in its place with no deadline, and APPEND extends it
      and keeps the deadline. */
  lemma TextCommands(now: int, cur: Option<Item>, t: string)
    requires IsStr(cur)
    ensures var r := KeyStep(now, GET, [], [], cur); r.0 == cur && AnswersText(r.1, cur)
    ensures KeyStep(now, STRLEN, [], [], cur) == (cur, Int(|TextOf(cur)|))
    ensures var r := KeyStep(now, GETDEL, [], [], cur); r.0 == None && AnswersText(r.1, cur)
    ensures var r := KeyStep(now, GETSET, [t], [], cur); r.0 == Some(Item(Str(t), 0)) && AnswersText(r.1, cur)
    ensures var s := TextOf(cur) + t;
            KeyStep(now, APPEND, [t], [], cur) == (Some(Item(Str(s), DeadlineOf(cur))), Int(|s|))
  {
    if cur.None? { assert "" + t == t; }
  }

  /** On a key that holds something else they all refuse and change nothing. */
  lemma TextCommandsRefuse(now: int, i: Item, verb: Verb, args: seq<string>)
    requires !i.value.Str? && args != []
    requires verb in {GET, STRLEN, GETDEL, GETSET, APPEND, INCR, DECR}
    ensures KeyStep(now, verb, args, [], Some(i)) == (Some(i), Err(WrongType))
  {
  }

  // -------------------------------------------------------------------------- counting

  /** The amount that a counting command adds, or why it is refused. */
  function Amount(verb: Verb, args: seq<string>): Result<int, Error> {
    match verb
    case INCR => Ok(1)
    case DECR => Ok(-1)
    case _ =>
      if args == [] then Fail(Arity)
      else if ParseInt64(args[0]).None? then Fail(NotInt)
      else if verb.INCRBY? then Ok(ParseInt64(args[0]).value)
      else if ParseInt64(args[0]).value == -TWO63 then Fail(Overflow)
      else Ok(0 - ParseInt64(args[0]).value)
  }

  /** The integer a key holds: 0 for no key, nothing for a text that is none. */
  function NumberAt(cur: Option<Item>): Option<int>
    requires IsStr(cur)
  {
    if cur.None? then Some(0) else ParseInt64(cur.value.value.s)
  }

  /** INCR, DECR, INCRBY and DECRBY: the sum is stored as a text that reads back as it, the
      deadline stays, and the sum is the answer; refused, they change nothing. */
  lemma CountingCommands(now: int, verb: Verb, args: seq<string>, cur: Option<Item>)
    requires verb in {INCR, DECR, INCRBY, DECRBY} && IsStr(cur)
    ensures var r := KeyStep(now, verb, args, [], cur);
            var amount, n := Amount(verb, args), NumberAt(cur);
            if amount.Fail? then r == (cur, Err(amount.error))
            else if n.None? then r == (cur, Err(NotInt))
            else if !IsInt64(n.value + amount.value) then r == (cur, Err(Overflow))
            else
              && r.1 == Int(n.value + amount.value)
              && r.0.Some? && r.0.value.at == DeadlineOf(cur) && r.0.value.value.Str?
              && ParseInt64(r.0.value.value.s) == Some(n.value + amount.value)
  {
    hide ParseInt64, FormatInt;
    var amount, n := Amount(verb, args), NumberAt(cur);
    if amount.Ok? && n.Some? && IsInt64(n.value + amount.value) { ParseOfFormat(n.value + amount.value); }
  }

  // -------------------------------------------------------------- deadlines and types

  /** PTTL answers the time left, TTL the nearest number of seconds, halves up; -1 stands for
      no deadline and -2 for no key; and PERSIST takes a deadline away, if there is one. */
  lemma TimeLeft(now: int, cur: Option<Item>)
    ensures var p, s := KeyStep(now, PTTL, [], [], cur), KeyStep(now, TTL, [], [], cur);
            && p.0 == cur == s.0 && p.1.Int? && s.1.Int?
            && if cur.None? then p.1.n == -2 == s.1.n
               else if cur.value.at == 0 then p.1.n == -1 == s.1.n
               else
                 && p.1.n == (if cur.value.at >= now then cur.value.at - now else 0)
                 && 1000 * s.1.n <= p.1.n + 500 < 1000 * s.1.n + 1000
    ensures KeyStep(now, PERSIST, [], [], cur) ==
            if cur.Some? && cur.value.at != 0 then (Some(Item(cur.value.value, 0)), Int(1)) else (cur, Int(0))
  {
  }

  /** TYPE names what the key holds. */
  lemma TypeNames(now: int, cur: Option<Item>)
    ensures KeyStep(now, TYPE, [], [], cur).0 == cur
    ensures KeyStep(now, TYPE, [], [], cur).1 ==
            Status(if cur.None? then "none"
                   else if cur.value.value.Str? then "string"
                   else if cur.value.value.List? then "list"
                   else if cur.value.value.Set? then "set"
                   else if cur.value.value.Hash? then "hash"
                   else "zset")
  {
  }

  /** Words that all say PERSIST. */
  predicate AllPersist(tail: seq<string>) {
    forall i :: 0 <= i < |tail| ==> WordOf(tail[i]).WPERSIST?
  }

  lemma {:induction false} ParsePersist(tail: seq<string>, o: GetExOption)
    requires AllPersist(tail) && !o.NewTtl?
    ensures ParseGetEx(tail, o) == Ok(if tail == [] then o else DropTtl)
    decreases |tail|
  {
    hide WordOf;
    if tail != [] {
      assert forall i :: 0 <= i < |tail| - 1 ==> tail[1..][i] == tail[i + 1];
      ParsePersist(tail[1..], DropTtl);
    }
  }

  lemma {:induction false} ParseNoPersist(tail: seq<string>, o: GetExOption)
    requires !AllPersist(tail) && (o.NewTtl? || o.DropTtl?)
    ensures ParseGetEx(tail, o) == Fail(Syntax)
    decreases |tail|
  {
    hide WordOf;
    if WordOf(tail[0]).WPERSIST? && o.DropTtl? {
      var i :| 0 <= i < |tail| && !WordOf(tail[i]).WPERSIST?;
      assert tail[1..][i - 1] == tail[i];
      ParseNoPersist(tail[1..], DropTtl);
    }
  }

  /** An expire option with its number, and nothing else. */
  predicate OneTime(tail: seq<string>) {
    |tail| == 2 && WordOf(tail[0]).Time?
  }

  lemma GetExParsed(tail: seq<string>)
    ensures ParseGetEx(tail, NoChange) ==
            if tail == [] then Ok(NoChange)
            else if AllPersist(tail) then Ok(DropTtl)
            else if OneTime(tail) then Ok(NewTtl(WordOf(tail[0]).u, tail[1]))
            else Fail(Syntax)
  {
    hide WordOf;
    if AllPersist(tail) {
      ParsePersist(tail, NoChange);
    } else if WordOf(tail[0]).WPERSIST? {
      var i :| 0 <= i < |tail| && !WordOf(tail[i]).WPERSIST?;
      assert tail[1..][i - 1] == tail[i];
      ParseNoPersist(tail[1..], DropTtl);
    } else if WordOf(tail[0]).Time? && |tail| > 2 {
      MoreAfterTime(tail[2..], NewTtl(WordOf(tail[0]).u, tail[1]));
    } else if WordOf(tail[0]).Time? && |tail| == 2 {
      assert tail[2..] == [];
    }
  }

  lemma MoreAfterTime(tail: seq<string>, o: GetExOption)
    requires tail != [] && o.NewTtl?
    ensures ParseGetEx(tail, o) == Fail(Syntax)
  {
    hide WordOf;
  }

  /** GETEX, from its text: with no word it is GET, with PERSIST (any number of times) it
      drops the deadline, with one expire option and a positive number it sets it or, if that
      has passed, deletes the key; it then answers as GET does.  Anything else is refused. */
  lemma GetExFollowsItsText(now: int, tail: seq<string>, cur: Option<Item>)
    ensures var r := KeyStep(now, GETEX, tail, [], cur);
            if tail != [] && !AllPersist(tail) && !OneTime(tail) then r == (cur, Err(Syntax))
            else if cur.None? then r == (None, Nil)
            else if !cur.value.value.Str? then r == (cur, Err(WrongType))
            else if tail == [] then r == (cur, Blob(cur.value.value.s))
            else if AllPersist(tail) then r == (Some(Item(cur.value.value, 0)), Blob(cur.value.value.s))
            else
              var n := ParseInt64(tail[1]);
              if n.None? then r == (cur, Err(NotInt))
              else if n.value <= 0 then r == (cur, Err(InvalidExpire))
              else
                var at := Resolve(now, WordOf(tail[0]).u, n.value);
                if at.Fail? then r == (cur, Err(at.error))
                else r == (if at.value <= now then None else Some(Item(cur.value.value, at.value)),
                           Blob(cur.value.value.s))
  {
    hide WordOf, ParseInt64, ParseGetEx, Resolve, AllPersist;
    GetExParsed(tail);
  }

  // ----------------------------------------------------------------------------- lists

  function ListOf(cur: Option<Item>): seq<string>
    requires cur.None? || cur.value.value.List?
  {
    if cur.None? then [] else cur.value.value.xs
  }

  /** LPUSH puts the values in front of the list, the last one first; RPUSH puts them behind
      it in order; both make the list if there is none, keep its deadline, and answer its
      length.  LPUSHX and RPUSHX do so on an existing list only. */
  lemma Pushes(now: int, verb: Verb, vs: seq<string>, cur: Option<Item>)
    requires verb in {LPUSH, RPUSH, LPUSHX, RPUSHX} && vs != [] && (cur.None? || cur.value.value.List?)
    ensures var r, xs := KeyStep(now, verb, vs, [], cur), ListOf(cur);
            if cur.None? && verb in {LPUSHX, RPUSHX} then r == (None, Int(0))
            else
              && r.0.Some? && r.0.value.value.List? && r.0.value.at == DeadlineOf(cur)
              && var ys := r.0.value.value.xs;
                 && r.1 == Int(|ys|) && |ys| == |xs| + |vs|
                 && if verb in {LPUSH, LPUSHX}
                    then (forall i :: 0 <= i < |vs| ==> ys[i] == vs[|vs| - 1 - i]) && ys[|vs|..] == xs
                    else ys == xs + vs
  {
    hide Reverse;
    ReverseLength(vs);
    forall i | 0 <= i < |vs| ensures Reverse(vs)[i] == vs[|vs| - 1 - i] { ReverseAt(vs, i); }
    var xs := ListOf(cur);
    assert (Reverse(vs) + xs)[|vs|..] == xs;
  }

  /** How many elements a pop asks for. */
  function Asked(args: seq<string>): Option<int> {
    if args == [] then Some(1) else ParseInt64(args[0])
  }

  /** LPOP takes from the front, RPOP from the back: as many elements as asked for and there
      are, answered in the order they come off; the rest keeps its deadline, and a list with
      no rest is gone. */
  lemma Pops(now: int, verb: Verb, args: seq<string>, i: Item)
    requires verb in {LPOP, RPOP} && i.value.List? && i.value.xs != [] && |args| <= 1
    requires Asked(args).Some? && Asked(args).value > 0
    ensures var r, xs := KeyStep(now, verb, args, [], Some(i)), i.value.xs;
            var n := if Asked(args).value < |xs| then Asked(args).value else |xs|;
            var out := if verb.LPOP? then xs[..n] else Reverse(xs[|xs| - n..]);
            var rest := if verb.LPOP? then xs[n..] else xs[..|xs| - n];
            && r.0 == (if rest == [] then None else Some(Item(List(rest), i.at)))
            && r.1 == (if args == [] then Blob(if verb.LPOP? then xs[0] else xs[|xs| - 1]) else Arr(out))
  {
    hide ParseInt64, PopStep, Reverse;
    PopsFrom(verb.LPOP?, args, i);
  }

  lemma PopsFrom(head: bool, args: seq<string>, i: Item)
    requires i.value.List? && i.value.xs != [] && |args| <= 1 && Asked(args).Some? && Asked(args).value > 0
    ensures var r, xs := PopStep(head, args, Some(i)), i.value.xs;
            var n := if Asked(args).value < |xs| then Asked(args).value else |xs|;
            var out := if head then xs[..n] else Reverse(xs[|xs| - n..]);
            var rest := if head then xs[n..] else xs[..|xs| - n];
            && r.0 == (if rest == [] then None else Some(Item(List(rest), i.at)))
            && r.1 == (if args == [] then Blob(if head then xs[0] else xs[|xs| - 1]) else Arr(out))
  {
    hide ParseInt64, Reverse;
    if args == [] { PopOne(head, i); }
  }

  /** And otherwise they change nothing: a count of 0 pops nothing, and a bad count, a
      missing key and another type are answered as such. */
  lemma PopsNothing(now: int, verb: Verb, args: seq<string>, cur: Option<Item>)
    requires verb in {LPOP, RPOP} && |args| <= 1
    ensures var r := KeyStep(now, verb, args, [], cur);
            if Asked(args).None? || Asked(args).value < 0 then r == (cur, Err(NotPositive))
            else if cur.None? then r == (None, Nil)
            else if !cur.value.value.List? then r == (cur, Err(WrongType))
            else Asked(args).value == 0 ==> r == (cur, Arr([]))
  {
    hide ParseInt64, Reverse;
  }

  /** The ends a moving command takes from and puts to, and its two keys: None for words it
      does not know, or another number of arguments. */
  datatype Moving = Moving(src: string, dst: string, fromLeft: bool, toLeft: bool)

  function MovingOf(c: Cmd): Option<Moving> {
    var a := c.args;
    match c.verb
    case LMOVE => if |a| != 4 then None else Ends(a)
    case BLMOVE => if |a| != 5 then None else Ends(a)
    case RPOPLPUSH => if |a| != 2 then None else Some(Moving(a[0], a[1], false, true))
    case BRPOPLPUSH => if |a| != 3 then None else Some(Moving(a[0], a[1], false, true))
    case _ => None
  }

  function Ends(a: seq<string>): Option<Moving>
    requires |a| >= 4
  {
    var from, to := WordOf(a[2]), WordOf(a[3]);
    if from in {LEFT, RIGHT} && to in {LEFT, RIGHT} then Some(Moving(a[0], a[1], from == LEFT, to == LEFT)) else None
  }

  /** LMOVE, BLMOVE, RPOPLPUSH and BRPOPLPUSH between two keys: the element at the named end
      of the source is answered, leaves it and stands at the named end of the destination;
      both keep their deadlines, an emptied source is gone, a new destination has none, and
      no other key changes. */
  lemma Moves(now: int, db: nat, c: Cmd, ks: Keys)
    requires MovingOf(c).Some?
    requires var m := MovingOf(c).value;
             m.src != m.dst && Movable(ks, Slot(db, m.src), Slot(db, m.dst))
    ensures var m := MovingOf(c).value;
            var s, d := Slot(db, m.src), Slot(db, m.dst);
            var xs, ys := ks[s].value.xs, ListOf(At(ks, d));
            var b := if m.fromLeft then xs[0] else xs[|xs| - 1];
            var rest := if m.fromLeft then xs[1..] else xs[..|xs| - 1];
            var moved := if m.toLeft then [b] + ys else ys + [b];
            && Exec(now, db, c, ks).1 == Blob(b)
            && forall k :: At(Exec(now, db, c, ks).0, k) ==
                 if k == s then (if rest == [] then None else Some(Item(List(rest), ks[s].at)))
                 else if k == d then Some(Item(List(moved), DeadlineOf(At(ks, d))))
                 else At(ks, k)
  {
    hide Move, PopStep, PushStep, WordOf, Exec, MovingOf;
    var m := MovingOf(c).value;
    var s, d := Slot(db, m.src), Slot(db, m.dst);
    MovedApart(ks, s, d, m.fromLeft, m.toLeft);
    PopOne(m.fromLeft, ks[s]);
    var b := PopStep(m.fromLeft, [], Some(ks[s])).1.b;
    PushedOne(m.toLeft, b, At(ks, d));
    DispatchMove(now, db, c, ks);
  }

  lemma DispatchMove(now: int, db: nat, c: Cmd, ks: Keys)
    requires MovingOf(c).Some?
    ensures var m := MovingOf(c).value;
            Exec(now, db, c, ks) == Move(ks, db, m.src, m.dst, m.fromLeft, m.toLeft)
  {
    hide Move, WordOf;
  }

  lemma PushedOne(head: bool, b: string, cur: Option<Item>)
    requires cur.None? || cur.value.value.List?
    ensures var ys := ListOf(cur);
            PushStep(head, false, [b], cur).0 == Some(Item(List(if head then [b] + ys else ys + [b]), DeadlineOf(cur)))
  {
    assert [b][1..] == [] && Reverse([b]) == [b];
  }

  /** On one key they rotate the list. */
  lemma MovesInPlace(now: int, db: nat, c: Cmd, ks: Keys)
    requires MovingOf(c).Some? && MovingOf(c).value.src == MovingOf(c).value.dst
    requires var k := Slot(db, MovingOf(c).value.src); k in ks && ks[k].value.List? && ks[k].value.xs != []
    ensures var m := MovingOf(c).value;
            var k := Slot(db, m.src);
            var xs := ks[k].value.xs;
            && Exec(now, db, c, ks).1 == Blob(if m.fromLeft then xs[0] else xs[|xs| - 1])
            && Exec(now, db, c, ks).0 ==
               ks[k := Item(List(if m.fromLeft == m.toLeft then xs
                                 else if m.fromLeft then xs[1..] + [xs[0]]
                                 else [xs[|xs| - 1]] + xs[..|xs| - 1]), ks[k].at)]
  {
    hide Move, WordOf;
    var m := MovingOf(c).value;
    DispatchMove(now, db, c, ks);
    MoveOntoItself(ks, db, m.src, m.fromLeft, m.toLeft);
  }

  /** BLPOP and BRPOP: the keys they name and the end they take from. */
  predicate BlockingPop(c: Cmd) {
    c.verb in {BLPOP, BRPOP} && |c.args| >= 2
  }

  /** They serve the first named key that exists, from the named end, and say which it was; a
      key of another type stops them; and with no key there they change nothing. */
  lemma BlockingPops(now: int, db: nat, c: Cmd, ks: Keys, i: nat)
    requires BlockingPop(c) && i < |c.args|
    requires forall j :: 0 <= j < i ==> Slot(db, c.args[j]) !in ks
    requires i < |c.args| - 1 ==>
               var k := Slot(db, c.args[i]); k in ks && (ks[k].value.List? ==> ks[k].value.xs != [])
    ensures var r := Exec(now, db, c, ks);
            if i == |c.args| - 1 then r == (ks, Nil)
            else
              var k := Slot(db, c.args[i]);
              if !ks[k].value.List? then r == (ks, Err(WrongType))
              else
                var xs := ks[k].value.xs;
                var left := c.verb.BLPOP?;
                var rest := if left then xs[1..] else xs[..|xs| - 1];
                && r.1 == KeyAndBlob(c.args[i], if left then xs[0] else xs[|xs| - 1])
                && forall j :: At(r.0, j) == if j == k then (if rest == [] then None else Some(Item(List(rest),
                                                                                                    ks[k].at)))
                                             else At(ks, j)
  {
    hide PopStep, BPop;
    var keys, head := c.args[..|c.args| - 1], c.verb.BLPOP?;
    assert forall j :: 0 <= j < |keys| ==> keys[j] == c.args[j];
    if i == |keys| {
      NoneToPop(ks, db, head, keys);
    } else if ks[Slot(db, keys[i])].value.List? {
      BPopServesFirst(ks, db, head, keys, i);
      PopOne(head, ks[Slot(db, keys[i])]);
    } else {
      WrongToPop(ks, db, head, keys, i);
    }
  }

  lemma {:induction false} NoneToPop(ks: Keys, db: nat, head: bool, keys: seq<string>)
    requires forall j :: 0 <= j < |keys| ==> Slot(db, keys[j]) !in ks
    ensures BPop(ks, db, head, keys) == (ks, Nil)
    decreases |keys|
  {
    hide PopStep;
    if keys != [] {
      assert forall j :: 0 <= j < |keys| - 1 ==> keys[1..][j] == keys[j + 1];
      NoneToPop(ks, db, head, keys[1..]);
    }
  }

  lemma {:induction false} WrongToPop(ks: Keys, db: nat, head: bool, keys: seq<string>, i: nat)
    requires i < |keys| && Slot(db, keys[i]) in ks && !ks[Slot(db, keys[i])].value.List?
    requires forall j :: 0 <= j < i ==> Slot(db, keys[j]) !in ks
    ensures BPop(ks, db, head, keys) == (ks, Err(WrongType))
    decreases |keys|
  {
    if i > 0 {
      assert forall j :: 0 <= j < |keys| - 1 ==> keys[1..][j] == keys[j + 1];
      WrongToPop(ks, db, head, keys[1..], i - 1);
    }
  }

  // ------------------------------------------------------------------- sets and maps

  function MembersOf(cur: Option<Item>): set<string>
    requires cur.None? || cur.value.value.Set?
  {
    if cur.None? then {} else cur.value.value.e.ms
  }

  /** SADD of texts that mean themselves: the union, with the deadline kept, and the number
      of members that came. */
  lemma Adds(now: int, ms: seq<string>, cur: Option<Item>)
    requires ms != [] && AllExact(ms) && (cur.Some? ==> cur.value.value.Set?)
    ensures var r, had := KeyStep(now, SADD, ms, [], cur), MembersOf(cur);
            && r.0.Some? && r.0.value.value.Set? && r.0.value.at == DeadlineOf(cur)
            && r.0.value.value.e.ms == had + ToSet(ms) && r.1 == Int(|ToSet(ms) - had|)
  {
    hide AddAll, ToSet, AllExact, StaysInt;
    var had := MembersOf(cur);
    AddAllExact(if cur.None? then FRESH else cur.value.value.e, ms);
    CountNew(had, ToSet(ms));
  }

  lemma CountNew(had: set<string>, more: set<string>)
    ensures |had + more| - |had| == |more - had|
  {
    assert had + more == had + (more - had);
  }

  /** SREM of such texts: the difference, with the deadline kept, an emptied set gone, and the
      number of members that went. */
  lemma Removes(now: int, ms: seq<string>, cur: Option<Item>)
    requires ms != [] && AllExact(ms) && (cur.Some? ==> cur.value.value.Set?)
    ensures var r, had := KeyStep(now, SREM, ms, [], cur), MembersOf(cur);
            && r.1 == Int(|had * ToSet(ms)|)
            && (if had - ToSet(ms) == {} then r.0 == None
                else r.0.Some? && r.0.value.value.Set? && r.0.value.at == DeadlineOf(cur)
                     && r.0.value.value.e.ms == had - ToSet(ms))
  {
    hide RemoveAll, ToSet, AllExact, Meant;
    var had := MembersOf(cur);
    CountGone(had, ToSet(ms));
    if cur.None? {
      assert had - ToSet(ms) == {} && had * ToSet(ms) == {};
    } else {
      RemoveAllExact(cur.value.value.e, ms);
    }
  }

  lemma CountGone(had: set<string>, gone: set<string>)
    ensures |had| - |had - gone| == |had * gone|
  {
    assert had == (had - gone) + (had * gone);
  }

  /** SPOP takes the members it draws, and answers with them. */
  lemma Draws(now: int, pick: seq<string>, args: seq<string>, i: Item)
    requires i.value.Set? && i.value.e.ms != {} && ValidPick(args, pick, Some(i)) && |args| <= 1
    requires Asked(args).Some? && Asked(args).value >= 0
    ensures var r, rest := KeyStep(now, SPOP, args, pick, Some(i)), i.value.e.ms - ToSet(pick);
            && r.1 == (if args == [] && pick != [] then Blob(pick[0]) else Arr(pick))
            && (if rest == {} then r.0 == None
                else r.0.Some? && r.0.value.value.Set? && r.0.value.at == i.at && r.0.value.value.e.ms == rest)
  {
    hide ParseInt64, ToSet;
    if pick == [] { assert ToSet(pick) == {} by { NothingListed(); } }
  }

  /** The names in an argument list of names and values, or of values and names. */
  function NamesIn(args: seq<string>, first: nat): set<string>
    requires first < 2
  {
    set i | 0 <= i < |args| / 2 :: args[2 * i + first]
  }

  lemma {:induction false} PairNames(args: seq<string>)
    requires |args| % 2 == 0
    ensures Pairs(args).Keys == NamesIn(args, 0)
    decreases |args|
  {
    hide NamesIn;
    if args == [] {
      NoNames(args, 0);
    } else {
      PairNames(args[..|args| - 2]);
      NamesSnoc(args, 0);
    }
  }

  lemma NoNames(args: seq<string>, first: nat)
    requires first < 2 && args == []
    ensures NamesIn(args, first) == {}
  {
  }

  lemma NamesSnoc(args: seq<string>, first: nat)
    requires |args| >= 2 && |args| % 2 == 0 && first < 2
    ensures NamesIn(args, first) == NamesIn(args[..|args| - 2], first) + {args[|args| - 2 + first]}
  {
    var front, n := args[..|args| - 2], |args| / 2;
    forall x | x in NamesIn(args, first) ensures x in NamesIn(front, first) + {args[|args| - 2 + first]} {
      var i :| 0 <= i < n && args[2 * i + first] == x;
      if i < n - 1 { assert front[2 * i + first] == x; }
    }
    forall x | x in NamesIn(front, first) ensures x in NamesIn(args, first) {
      var i :| 0 <= i < |front| / 2 && front[2 * i + first] == x;
      assert args[2 * i + first] == x;
    }
    assert args[2 * (n - 1) + first] == args[|args| - 2 + first];
  }

  lemma {:induction false} ScoreNames(args: seq<string>)
    requires |args| % 2 == 0 && Scores(args).Some?
    ensures Scores(args).value.Keys == NamesIn(args, 1)
    decreases |args|
  {
    hide NamesIn, ParseInt64;
    if args == [] {
      NoNames(args, 1);
    } else {
      ScoreNames(args[..|args| - 2]);
      NamesSnoc(args, 1);
    }
  }

  lemma Grown<V>(a: map<string, V>, b: map<string, V>, had: set<string>, names: set<string>)
    requires had == a.Keys && names == b.Keys
    ensures |a + b| - |a| == |names - had|
  {
    assert (a + b).Keys == a.Keys + (b.Keys - a.Keys);
    assert |(a + b).Keys| == |a + b| && |a.Keys| == |a|;
  }

  lemma NoKeys<V>()
    ensures (var m: map<string, V> := map[]; m.Keys == {})
  {
  }

  lemma HSetGrows(args: seq<string>, cur: Option<Item>)
    requires |args| >= 2 && |args| % 2 == 0 && (cur.Some? ==> cur.value.value.Hash?)
    ensures var had := if cur.None? then map[] else cur.value.value.fields;
            HSetStep(args, cur).1 == Int(|had + Pairs(args)| - |had|)
  {
    hide Pairs;
  }

  /** HSET answers the number of fields it made. */
  lemma HSetCounts(now: int, args: seq<string>, cur: Option<Item>)
    requires |args| >= 2 && |args| % 2 == 0 && (cur.Some? ==> cur.value.value.Hash?)
    ensures var had := if cur.None? then {} else cur.value.value.fields.Keys;
            KeyStep(now, HSET, args, [], cur).1 == Int(|NamesIn(args, 0) - had|)
  {
    hide Pairs, NamesIn, HSetStep;
    PairNames(args);
    HSetGrows(args, cur);
    if cur.None? {
      NoKeys<string>();
      Grown(map[], Pairs(args), {}, NamesIn(args, 0));
    } else {
      Grown(cur.value.value.fields, Pairs(args), cur.value.value.fields.Keys, NamesIn(args, 0));
    }
  }

  lemma {:induction false} ScoresLast(args: seq<string>, i: nat)
    requires |args| % 2 == 0 && 2 * i + 1 < |args| && Scores(args).Some?
    requires forall j :: i < j && 2 * j + 1 < |args| ==> args[2 * j + 1] != args[2 * i + 1]
    ensures args[2 * i + 1] in Scores(args).value
    ensures ParseInt64(args[2 * i]) == Some(Scores(args).value[args[2 * i + 1]])
    decreases |args|
  {
    hide ParseInt64;
    var n := |args|;
    var front := args[..n - 2];
    if 2 * i + 2 < n {
      assert args[2 * (n / 2 - 1) + 1] != args[2 * i + 1];
      assert forall j :: 0 <= j && 2 * j + 1 < |front| ==> front[2 * j + 1] == args[2 * j + 1];
      ScoresLast(front, i);
    }
  }

  /** ZADD gives every named member the score of its last mention, leaves the others and the
      deadline alone, and answers the number of members it made; a score that does not parse
      refuses it. */
  lemma ZAddWritesLast(now: int, args: seq<string>, cur: Option<Item>, i: nat)
    requires |args| % 2 == 0 && 2 * i + 1 < |args| && (cur.Some? ==> cur.value.value.ZSet?)
    requires forall j :: i < j && 2 * j + 1 < |args| ==> args[2 * j + 1] != args[2 * i + 1]
    ensures var r, m, had := KeyStep(now, ZADD, args, [], cur), args[2 * i + 1], ScoresOf(cur);
            if Scores(args).None? then r == (cur, Err(NotFloat))
            else
              && r.0.Some? && r.0.value.value.ZSet? && r.0.value.at == DeadlineOf(cur)
              && var got := r.0.value.value.scores;
                 && m in got && ParseInt64(args[2 * i]) == Some(got[m])
                 && r.1 == Int(|NamesIn(args, 1) - had.Keys|)
                 && forall x :: x in had && x !in NamesIn(args, 1) ==> x in got && got[x] == had[x]
  {
    hide Scores, ParseInt64, NamesIn, KeyStep, ZAddStep;
    DispatchZAdd(now, args, cur);
    if Scores(args).None? {
      ZAddRefused(args, cur);
    } else {
      ZAddMerges(args, cur);
      ScoresLast(args, i);
      ScoreNames(args);
      var had := ScoresOf(cur);
      Grown(had, Scores(args).value, had.Keys, NamesIn(args, 1));
    }
  }

  function ScoresOf(cur: Option<Item>): map<string, int>
    requires cur.Some? ==> cur.value.value.ZSet?
  {
    if cur.None? then map[] else cur.value.value.scores
  }

  lemma DispatchZAdd(now: int, args: seq<string>, cur: Option<Item>)
    ensures KeyStep(now, ZADD, args, [], cur) == ZAddStep(args, cur)
  {
    hide ZAddStep;
  }

  lemma ZAddRefused(args: seq<string>, cur: Option<Item>)
    requires |args| >= 2 && |args| % 2 == 0 && Scores(args).None?
    ensures ZAddStep(args, cur) == (cur, Err(NotFloat))
  {
    hide Scores;
  }

  lemma ZAddMerges(args: seq<string>, cur: Option<Item>)
    requires |args| >= 2 && |args| % 2 == 0 && (cur.Some? ==> cur.value.value.ZSet?) && Scores(args).Some?
    ensures var got := ScoresOf(cur) + Scores(args).value;
            ZAddStep(args, cur) == (Some(Item(ZSet(got), DeadlineOf(cur))), Int(|got| - |ScoresOf(cur)|))
  {
    hide Scores;
  }

  // -------------------------------------------------------------------- whole keyspaces

  /** DEL: the named keys are gone, nothing else is, and the answer is how many there were. */
  lemma Deletes(now: int, db: nat, keys: seq<string>, ks: Keys)
    requires keys != []
    ensures Exec(now, db, Cmd(DEL, keys, []), ks) == (ks - Named(db, keys), Int(|ks.Keys * Named(db, keys)|))
  {
    hide DelAll, Named;
    DelIsExact(ks, db, keys);
  }

  /** FLUSHDB and FLUSHALL: the keys of the DB, or all keys, are gone, and nothing else is. */
  lemma Flushes(now: int, db: nat, ks: Keys)
    ensures var r := Exec(now, db, Cmd(FLUSHDB, [], []), ks);
            && r.1 == OK
            && forall k: Slot :: if k.db == db then k !in r.0 else At(r.0, k) == At(ks, k)
    ensures Exec(now, db, Cmd(FLUSHALL, [], []), ks) == (map[], OK)
  {
    hide OtherDBs;
    OthersStay(ks, db);
  }

  lemma OthersStay(ks: Keys, db: nat)
    ensures forall k: Slot :: if k.db == db then k !in OtherDBs(ks, db) else At(OtherDBs(ks, db), k) == At(ks, k)
  {
  }

  /** A command on one key is what its handler makes of that key, and no other key changes. */
  lemma OneKeyOnly(now: int, db: nat, c: Cmd, ks: Keys)
    requires OneKey(c.verb) && c.args != []
    ensures var k, r := Slot(db, c.args[0]), Exec(now, db, c, ks);
            var one := KeyStep(now, c.verb, c.args[1..], c.pick, At(ks, k));
            r.1 == one.1 && forall j :: At(r.0, j) == if j == k then one.0 else At(ks, j)
  {
    hide KeyStep;
  }
}
