/**
 Laws of the command handlers (lib/commands/strings.go, keys.go, list.go, set.go): what
 one command undoes of another, what they conserve, and what they leave alone.
 */
module CommandLaws {
  import opened Basics
  import opened Decimal
  import opened SetEncoding
  import opened Commands

  // ------------------------------------------------------------------------------ lists

  lemma {:induction false} ReverseAt(xs: seq<string>, k: nat)
    requires k < |xs|
    ensures |Reverse(xs)| == |xs| && Reverse(xs)[k] == xs[|xs| - 1 - k]
  {
    ReverseLength(xs[1..]);
    if k < |xs| - 1 { ReverseAt(xs[1..], k); }
  }

  lemma ReverseTwice(xs: seq<string>)
    ensures Reverse(Reverse(xs)) == xs
  {
    hide Reverse;
    ReverseLength(xs);
    ReverseLength(Reverse(xs));
    forall k | 0 <= k < |xs| ensures Reverse(Reverse(xs))[k] == xs[k] {
      ReverseAt(Reverse(xs), k);
      ReverseAt(xs, |xs| - 1 - k);
    }
  }

  lemma {:induction false} ReverseMembers(xs: seq<string>)
    ensures multiset(Reverse(xs)) == multiset(xs)
  {
    if xs != [] {
      ReverseMembers(xs[1..]);
      assert xs == [xs[0]] + xs[1..];
    }
  }

  /** What is popped and what is left make up the list, in its order. */
  lemma PopTakesTheEnd(head: bool, n: nat, xs: seq<string>)
    requires n <= |xs|
    ensures var (out, rest) := Popped(head, n, xs);
            && |out| == n
            && (head ==> out + rest == xs)
            && (!head ==> rest + Reverse(out) == xs)
  {
    hide Reverse;
    ReverseLength(xs[|xs| - n..]);
    ReverseTwice(xs[|xs| - n..]);
  }

  /** Popping |vs| elements from the end they were pushed at gives them back last first,
      and leaves the key as it was. */
  lemma PopUndoesPush(head: bool, vs: seq<string>, cur: Option<Item>, count: string)
    requires vs != [] && (cur.Some? ==> cur.value.value.List? && cur.value.value.xs != [])
    requires ParseInt64(count) == Some(|vs|)
    ensures var pushed := PushStep(head, false, vs, cur).0;
            PopStep(head, [count], pushed) == (cur, Arr(Reverse(vs)))
  {
    hide ParseInt64, Reverse, Popped;
    ReverseLength(vs);
    PoppedAfterPush(head, vs, if cur.None? then [] else cur.value.value.xs);
  }

  lemma PoppedAfterPush(head: bool, vs: seq<string>, xs: seq<string>)
    ensures |Reverse(vs)| == |vs|
    ensures var ys := if head then Reverse(vs) + xs else xs + vs;
            |ys| == |vs| + |xs| && Popped(head, |vs|, ys) == (Reverse(vs), xs)
  {
    hide Reverse;
    ReverseLength(vs);
    var r := Reverse(vs);
    if head {
      assert (r + xs)[..|vs|] == r && (r + xs)[|vs|..] == xs;
    } else {
      assert (xs + vs)[|xs|..] == vs && (xs + vs)[..|xs|] == xs;
    }
  }

  function Elements(o: Option<Item>): multiset<string> {
    if o.Some? && o.value.value.List? then multiset(o.value.value.xs) else multiset{}
  }

  /** There is an element to move and a list, or nothing, to move it to. */
  predicate Movable(ks: Keys, s: Slot, d: Slot) {
    s in ks && ks[s].value.List? && ks[s].value.xs != [] && (d in ks ==> ks[d].value.List?)
  }

  /** LMOVE and its relatives lose and invent nothing: the element that is returned left
      the source and arrived at the destination, and no other key changed. */
  lemma MoveConserves(ks: Keys, db: nat, src: string, dst: string, fromHead: bool, toHead: bool)
    requires src != dst
    ensures var r := Move(ks, db, src, dst, fromHead, toHead);
            var s, d := Slot(db, src), Slot(db, dst);
            && (r.1.Blob? <==> Movable(ks, s, d))
            && (r.1.Blob? ==>
                  && Elements(At(ks, s)) == Elements(At(r.0, s)) + multiset{r.1.b}
                  && Elements(At(r.0, d)) == Elements(At(ks, d)) + multiset{r.1.b})
            && (!r.1.Blob? ==> r.0 == ks)
            && (forall k :: k != s && k != d ==> At(r.0, k) == At(ks, k))
  {
    hide Move, PopStep, PushStep, Put, Elements;
    var s, d := Slot(db, src), Slot(db, dst);
    if Movable(ks, s, d) {
      var popped := PopStep(fromHead, [], Some(ks[s]));
      PopOne(fromHead, ks[s]);
      PopElements(fromHead, ks[s]);
      MovedApart(ks, s, d, fromHead, toHead);
      var pushed := PushStep(toHead, false, [popped.1.b], At(ks, d)).0;
      PushOne(toHead, popped.1.b, At(ks, d));
      var mid := Put(ks, d, pushed);
      forall k ensures At(Put(mid, s, popped.0), k) == if k == s then popped.0 else if k == d then pushed
          else At(ks, k) {
        PutThenAt(ks, d, pushed, k);
        PutThenAt(mid, s, popped.0, k);
      }
    } else {
      MoveRefused(ks, db, src, dst, fromHead, toHead);
    }
  }

  lemma PutThenAt(ks: Keys, k: Slot, v: Option<Item>, j: Slot)
    ensures At(Put(ks, k, v), j) == if j == k then v else At(ks, j)
  {
  }

  lemma MoveRefused(ks: Keys, db: nat, src: string, dst: string, fromHead: bool, toHead: bool)
    requires !Movable(ks, Slot(db, src), Slot(db, dst))
    ensures var r := Move(ks, db, src, dst, fromHead, toHead); !r.1.Blob? && r.0 == ks
  {
    hide PopStep, PushStep, Put;
    var s := Slot(db, src);
    if s in ks && ks[s].value.List? { NothingToPop(fromHead, ks[s]); }
  }

  lemma NothingToPop(head: bool, i: Item)
    requires i.value.List?
    ensures i.value.xs == [] ==> !PopStep(head, [], Some(i)).1.Blob?
  {
    hide Reverse;
    ReverseLength([]);
    if i.value.xs == [] { assert i.value.xs[|i.value.xs| - 0..] == []; }
  }

  lemma PopElements(head: bool, i: Item)
    requires i.value.List? && i.value.xs != []
    ensures var r := PopStep(head, [], Some(i));
            r.1.Blob? && Elements(Some(i)) == Elements(r.0) + multiset{r.1.b}
  {
    hide PopStep;
    PopOne(head, i);
  }

  lemma PopOne(head: bool, i: Item)
    requires i.value.List? && i.value.xs != []
    ensures var r, xs := PopStep(head, [], Some(i)), i.value.xs;
            && r.1 == Blob(if head then xs[0] else xs[|xs| - 1])
            && r.0 == Kept(List(if head then xs[1..] else xs[..|xs| - 1]), i.at)
            && multiset(xs) == multiset(if head then xs[1..] else xs[..|xs| - 1]) + multiset{r.1.b}
  {
    var xs := i.value.xs;
    if head {
      assert xs == [xs[0]] + xs[1..];
    } else {
      var last := xs[|xs| - 1..];
      assert last == [xs[|xs| - 1]] && last[1..] == [];
      assert Reverse(last) == [xs[|xs| - 1]];
      assert xs == xs[..|xs| - 1] + [xs[|xs| - 1]];
    }
  }

  lemma PushOne(head: bool, b: string, cur: Option<Item>)
    requires cur.None? || cur.value.value.List?
    ensures var r := PushStep(head, false, [b], cur).0;
            Elements(r) == Elements(cur) + multiset{b}
  {
    assert [b][1..] == [];
    assert Reverse([b]) == [b];
  }

  lemma MovedApart(ks: Keys, s: Slot, d: Slot, fromHead: bool, toHead: bool)
    requires s != d && s.db == d.db && s in ks && ks[s].value.List? && ks[s].value.xs != []
    requires d in ks ==> ks[d].value.List?
    ensures var r := Move(ks, s.db, s.key, d.key, fromHead, toHead);
            var popped := PopStep(fromHead, [], Some(ks[s]));
            && popped.1.Blob? && r.1 == Blob(popped.1.b)
            && r.0 == Put(Put(ks, d, PushStep(toHead, false, [popped.1.b], At(ks, d)).0), s, popped.0)
  {
    hide Reverse;
    PopOne(fromHead, ks[s]);
  }

  /** On one key, LMOVE with opposite ends rotates the list; with equal ends it changes
      nothing. */
  lemma MoveOntoItself(ks: Keys, db: nat, key: string, fromHead: bool, toHead: bool)
    requires var k := Slot(db, key); k in ks && ks[k].value.List? && ks[k].value.xs != []
    ensures var k := Slot(db, key);
            var xs, r := ks[k].value.xs, Move(ks, db, key, key, fromHead, toHead);
            && r.1 == Blob(if fromHead then xs[0] else xs[|xs| - 1])
            && r.0 == ks[k := Item(List(if fromHead == toHead then xs
                                        else if fromHead then xs[1..] + [xs[0]]
                                        else [xs[|xs| - 1]] + xs[..|xs| - 1]), ks[k].at)]
  {
    hide Move;
    var k := Slot(db, key);
    var xs := ks[k].value.xs;
    MovedInPlace(ks, k, fromHead, toHead);
    assert xs == [xs[0]] + xs[1..] && xs == xs[..|xs| - 1] + [xs[|xs| - 1]];
  }

  lemma MovedInPlace(ks: Keys, k: Slot, fromHead: bool, toHead: bool)
    requires k in ks && ks[k].value.List? && ks[k].value.xs != []
    ensures var xs := ks[k].value.xs;
            var b, rest := (if fromHead then xs[0] else xs[|xs| - 1]), (if fromHead then xs[1..] else xs[..|xs| - 1]);
            Move(ks, k.db, k.key, k.key, fromHead, toHead)
              == (ks[k := Item(List(if toHead then [b] + rest else rest + [b]), ks[k].at)], Blob(b))
  {
    hide PopStep, PushStep, Put;
    PopOne(fromHead, ks[k]);
  }

  // ---------------------------------------------------------------- strings and deadlines

  /** Appending twice is appending the two texts together. */
  lemma AppendJoins(now: int, a: string, b: string, cur: Option<Item>)
    requires IsStr(cur)
    ensures KeyStep(now, APPEND, [b], [], KeyStep(now, APPEND, [a], [], cur).0) ==
        KeyStep(now, APPEND, [a + b], [], cur)
  {
    hide ParseInt64, FormatInt;
    if cur.Some? { assert cur.value.value.s + a + b == cur.value.value.s + (a + b); }
  }

  /** PEXPIREAT in the future gives the key the remaining time that PTTL reports, keeps
      the value, and PERSIST takes the deadline away again. */
  lemma PersistUndoesExpire(now: int, i: Item, at: int)
    requires 0 <= now < at <= MAX64
    ensures var r := KeyStep(now, PEXPIREAT, [FormatInt(at)], [], Some(i));
            && r == (Some(i.(at := at)), Int(1))
            && KeyStep(now, PTTL, [], [], r.0).1 == Int(at - now)
            && KeyStep(now, PERSIST, [], [], r.0) == (Some(i.(at := 0)), Int(1))
  {
    hide WordOf, ParseInt64, FormatInt;
    ParseOfFormat(at);
    assert [FormatInt(at)][1..] == [];
  }

  /** DECRBY undoes INCRBY, on every stored integer and every amount that fit. */
  lemma DecrUndoesIncr(n: int, delta: int, at: int)
    requires IsInt64(n) && IsInt64(delta) && IsInt64(n + delta) && delta != -TWO63
    ensures var cur := Some(Item(Str(FormatInt(n)), at));
            var up := IncrByStep(false, [FormatInt(delta)], cur);
            && up.1 == Int(n + delta)
            && IncrByStep(true, [FormatInt(delta)], up.0) == (cur, Int(n))
  {
    hide ParseInt64, FormatInt;
    ParseOfFormat(n);
    ParseOfFormat(delta);
    ParseOfFormat(n + delta);
  }

  // -------------------------------------------------------------------- sets and hashes

  /** The members and the deadline of a set, whatever its encoding. */
  predicate SameSet(a: Option<Item>, b: Option<Item>) {
    if a.None? || b.None? then a == b
    else
      && a.value.value.Set? && b.value.value.Set?
      && a.value.value.e.ms == b.value.value.e.ms && a.value.at == b.value.at
  }

  /** SREM of new members undoes SADD, and both count them: for exact texts, and for any
      texts on a set that no longer holds integers. */
  lemma SRemUndoesSAdd(ms: seq<string>, cur: Option<Item>)
    requires ms != [] && (cur.Some? ==> cur.value.value.Set? && cur.value.value.e.ms != {})
    requires AllExact(ms) || (cur.Some? && !cur.value.value.e.isInt)
    requires cur.Some? ==> ToSet(ms) !! cur.value.value.e.ms
    ensures var added := SAddStep(ms, cur);
            var removed := SRemStep(ms, added.0);
            added.1 == removed.1 == Int(|ToSet(ms)|) && SameSet(removed.0, cur)
  {
    hide AddAll, RemoveAll, ToSet;
    var had := if cur.None? then FRESH else cur.value.value.e;
    AddAllExact(had, ms);
    AddedEncoding(had, ms);
    var got := AddAll(had, ms);
    RemoveAllExact(got, ms);
    assert (had.ms + ToSet(ms)) - ToSet(ms) == had.ms;
    assert |had.ms + ToSet(ms)| == |had.ms| + |ToSet(ms)|;
  }

  /** And exactly when it does, for any texts and any set. */
  lemma SRemUndoesSAddIff(ms: seq<string>, cur: Option<Item>)
    requires ms != [] && (cur.Some? ==> cur.value.value.Set? && cur.value.value.e.ms != {})
    ensures var had := if cur.None? then FRESH else cur.value.value.e;
            SameSet(SRemStep(ms, SAddStep(ms, cur).0).0, cur) <==> Undoes(had, ms)
  {
    hide AddAll, RemoveAll, Undoes;
    RemoveUndoesAddIff(if cur.None? then FRESH else cur.value.value.e, ms);
  }

  lemma {:induction false} AddedEncoding(e: SetValue, ms: seq<string>)
    ensures !e.isInt ==> !AddAll(e, ms).isInt
    decreases |ms|
  {
    if ms != [] { AddedEncoding(AddOne(e, ms[0]), ms[1..]); }
  }

  lemma OneMember(e: SetValue, m: string)
    ensures AddAll(e, [m]) == AddOne(e, m) && RemoveAll(e, [m]) == RemoveOne(e, m)
  {
    hide AddOne, RemoveOne;
    assert [m][1..] == [];
  }

  /** And it need not otherwise: on the set {r} the text of 2^64 + r is not new, and
      removing it removes r. */
  lemma SRemOfWrappedText(r: nat)
    requires r < TWO63
    ensures var one, wrapped := FormatInt(r), Digits(r + TWO64);
            var cur := SAddStep([one], None).0;
            && one != wrapped && SAddStep([wrapped], cur) == (cur, Int(0))
            && SRemStep([wrapped], cur) == (None, Int(1))
  {
    hide ParseInt64, FormatInt, Digits;
    var one, wrapped := FormatInt(r), Digits(r + TWO64);
    WrappedIsInexact(r);
    WrappedFamily(r);
    FormatIsPrint(r);
    OneMember(FRESH, one);
    var e := AddAll(FRESH, [one]);
    assert e == Encoded(true, {one}) by { assert FRESH.ms + {one} == {one}; }
    OneMember(e, wrapped);
    assert e.ms + {one} == e.ms && e.ms - {one} == {};
  }

  lemma {:induction false} PairsLast(args: seq<string>, i: nat)
    requires |args| % 2 == 0 && 2 * i + 1 < |args|
    requires forall j :: i < j && 2 * j + 1 < |args| ==> args[2 * j] != args[2 * i]
    ensures args[2 * i] in Pairs(args) && Pairs(args)[args[2 * i]] == args[2 * i + 1]
    decreases |args|
  {
    var n := |args|;
    var front := args[..n - 2];
    if 2 * i + 2 < n {
      assert args[2 * (n / 2 - 1)] != args[2 * i];
      assert forall j :: 0 <= j && 2 * j + 1 < |front| ==> front[2 * j] == args[2 * j];
      PairsLast(front, i);
    }
  }

  /** HSET leaves every named field with the value of its last mention, and every other
      field, and the deadline, alone. */
  lemma HSetWritesLast(args: seq<string>, cur: Option<Item>, i: nat)
    requires |args| % 2 == 0 && 2 * i + 1 < |args|
    requires forall j :: i < j && 2 * j + 1 < |args| ==> args[2 * j] != args[2 * i]
    requires cur.Some? ==> cur.value.value.Hash?
    ensures var r := HSetStep(args, cur).0;
            && r.Some? && r.value.value.Hash?
            && args[2 * i] in r.value.value.fields && r.value.value.fields[args[2 * i]] == args[2 * i + 1]
            && r.value.at == (if cur.None? then 0 else cur.value.at)
            && (cur.Some? ==> forall f :: f in cur.value.value.fields && f !in Pairs(args) ==>
                  f in r.value.value.fields && r.value.value.fields[f] == cur.value.value.fields[f])
  {
    hide Pairs;
    PairsLast(args, i);
  }

  // ---------------------------------------------------------------------- several keys

  function Named(db: nat, keys: seq<string>): set<Slot> {
    set i | 0 <= i < |keys| :: Slot(db, keys[i])
  }

  lemma NamedCons(db: nat, keys: seq<string>)
    requires keys != []
    ensures Named(db, keys) == {Slot(db, keys[0])} + Named(db, keys[1..])
  {
    forall s ensures s in Named(db, keys) <==> s in {Slot(db, keys[0])} + Named(db, keys[1..]) {
      if s in Named(db, keys) {
        var i :| 0 <= i < |keys| && s == Slot(db, keys[i]);
        if i > 0 { assert keys[1..][i - 1] == keys[i]; }
      }
      if s in Named(db, keys[1..]) {
        var i :| 0 <= i < |keys[1..]| && s == Slot(db, keys[1..][i]);
        assert keys[i + 1] == keys[1..][i];
      }
    }
  }

  /** DEL removes exactly the named keys and counts those that existed, each once. */
  lemma {:induction false} DelIsExact(ks: Keys, db: nat, keys: seq<string>)
    ensures DelAll(ks, db, keys).0 == ks - Named(db, keys)
    ensures DelAll(ks, db, keys).1 == Int(|ks.Keys * Named(db, keys)|)
    decreases |keys|
  {
    hide Named, DelAll;
    if keys == [] {
      DelNothing(ks, db);
    } else {
      var k, rest := Slot(db, keys[0]), Named(db, keys[1..]);
      DelIsExact(ks - {k}, db, keys[1..]);
      DelFirst(ks, db, keys);
      NamedCons(db, keys);
      RemoveBoth(ks, k, rest);
      CountSplit(ks.Keys, k, rest);
    }
  }

  lemma DelNothing(ks: Keys, db: nat)
    ensures DelAll(ks, db, []) == (ks - Named(db, []), Int(|ks.Keys * Named(db, [])|))
  {
    assert Named(db, []) == {} && ks.Keys * {} == {};
    assert ks - {} == ks;
  }

  lemma DelFirst(ks: Keys, db: nat, keys: seq<string>)
    requires keys != [] && DelAll(ks - {Slot(db, keys[0])}, db, keys[1..]).1.Int?
    ensures var k := Slot(db, keys[0]);
            var r := DelAll(ks - {k}, db, keys[1..]);
            DelAll(ks, db, keys) == (r.0, Int(r.1.n + if k in ks then 1 else 0))
  {
  }

  lemma RemoveBoth(ks: Keys, k: Slot, rest: set<Slot>)
    ensures ks - {k} - rest == ks - ({k} + rest) && (ks - {k}).Keys == ks.Keys - {k}
  {
  }

  lemma CountSplit(have: set<Slot>, k: Slot, rest: set<Slot>)
    ensures |have * ({k} + rest)| == |(have - {k}) * rest| + if k in have then 1 else 0
  {
    var a := (have - {k}) * rest;
    if k in have {
      assert have * ({k} + rest) == a + {k};
    } else {
      assert have * ({k} + rest) == a;
    }
  }

  /** BLPOP and BRPOP serve the first named key that exists, as LPOP and RPOP would. */
  lemma {:induction false} BPopServesFirst(ks: Keys, db: nat, head: bool, keys: seq<string>, i: nat)
    requires i < |keys| && Slot(db, keys[i]) in ks
    requires var k := Slot(db, keys[i]); ks[k].value.List? && ks[k].value.xs != []
    requires forall j :: 0 <= j < i ==> Slot(db, keys[j]) !in ks
    ensures var k := Slot(db, keys[i]);
            var one := PopStep(head, [], Some(ks[k]));
            && one.1.Blob?
            && BPop(ks, db, head, keys) == (Put(ks, k, one.0), KeyAndBlob(keys[i], one.1.b))
    decreases |keys|
  {
    hide PopStep, Put;
    PopOne(head, ks[Slot(db, keys[i])]);
    if i > 0 {
      assert keys[1..][i - 1] == keys[i];
      assert forall j :: 0 <= j < i - 1 ==> keys[1..][j] == keys[j + 1];
      BPopServesFirst(ks, db, head, keys[1..], i - 1);
    }
  }
}
