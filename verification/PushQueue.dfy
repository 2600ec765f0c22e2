/**
 The outbound push queue (lib/pushq/pushq.go): a ring that doubles as it grows, with a
 ceiling on the queued bytes.  Every method runs under the queue's lock, so a run of any
 number of producers and one consumer is a sequence of operations.
 */
module PushQueue {
  import opened Basics

  const INIT_ITEMS: nat := 64
  const DEFAULT_CAP: nat := 33554432

  // ------------------------------------------------------------ the abstract queue

  /** An item with its byte cost. */
  datatype Cell<T> = Cell(item: T, cost: nat)

  datatype Queue<T> = Queue(cells: seq<Cell<T>>, cap: nat, closed: bool, overflow: bool)

  function Bytes<T>(cells: seq<Cell<T>>): nat {
    if cells == [] then 0 else cells[0].cost + Bytes(cells[1..])
  }

  lemma {:induction false} BytesSnoc<T>(a: seq<Cell<T>>, c: Cell<T>)
    ensures Bytes(a + [c]) == Bytes(a) + c.cost
  {
    if a != [] {
      assert (a + [c])[1..] == a[1..] + [c];
      BytesSnoc(a[1..], c);
    }
  }

  function Enqueued<T>(q: Queue<T>, c: Cell<T>): (Queue<T>, bool) {
    if q.closed || q.overflow then (q, false)
    else if Bytes(q.cells) + c.cost > q.cap then (q.(overflow := true), false)
    else (q.(cells := q.cells + [c]), true)
  }

  function Dequeued<T>(q: Queue<T>): (Queue<T>, Option<T>) {
    if q.cells == [] then (q, None) else (q.(cells := q.cells[1..]), Some(q.cells[0].item))
  }

  // ------------------------------------------------------------------------- runs

  datatype Op<T> = Put(c: Cell<T>) | Take | Shut

  /** A queue with its past: the items accepted and the items handed out, in order. */
  datatype World<T> = World(q: Queue<T>, accepted: seq<T>, taken: seq<T>)

  function Step<T>(w: World<T>, op: Op<T>): World<T> {
    match op
    case Put(c) =>
      var (q, ok) := Enqueued(w.q, c);
      World(q, if ok then w.accepted + [c.item] else w.accepted, w.taken)
    case Take =>
      var (q, r) := Dequeued(w.q);
      World(q, w.accepted, if r.Some? then w.taken + [r.value] else w.taken)
    case Shut => w.(q := w.q.(closed := true))
  }

  function Run<T>(w: World<T>, ops: seq<Op<T>>): World<T>
    decreases |ops|
  {
    if ops == [] then w else Run(Step(w, ops[0]), ops[1..])
  }

  function Items<T>(cells: seq<Cell<T>>): (r: seq<T>)
    ensures |r| == |cells| && forall i :: 0 <= i < |cells| ==> r[i] == cells[i].item
  {
    if cells == [] then [] else [cells[0].item] + Items(cells[1..])
  }

  /** First in, first out, nothing lost and nothing invented; within the ceiling. */
  ghost predicate Inv<T>(w: World<T>) {
    w.accepted == w.taken + Items(w.q.cells) && Bytes(w.q.cells) <= w.q.cap
  }

  lemma StepKeepsInv<T>(w: World<T>, op: Op<T>)
    requires Inv(w)
    ensures Inv(Step(w, op))
    ensures (w.q.closed || w.q.overflow) ==>
              (Step(w, op).q.closed || Step(w, op).q.overflow) && Step(w, op).accepted == w.accepted
  {
    match op
    case Put(c) =>
      BytesSnoc(w.q.cells, c);
      assert Items(w.q.cells + [c]) == Items(w.q.cells) + [c.item];
    case Take =>
      if w.q.cells != [] {
        assert w.taken + Items(w.q.cells) == (w.taken + [w.q.cells[0].item]) + Items(w.q.cells[1..]);
      }
    case Shut =>
  }

  /** Over every run: what was taken is a prefix of what was accepted and the rest is
      queued, the bytes stay within the ceiling, and once the queue has refused an item
      or been closed it never accepts another. */
  lemma {:induction false} RunIsFifo<T>(w: World<T>, ops: seq<Op<T>>)
    requires Inv(w)
    ensures var w' := Run(w, ops);
            && Inv(w') && w'.taken <= w'.accepted
            && (w.q.closed || w.q.overflow ==> w'.accepted == w.accepted)
    decreases |ops|
  {
    if ops != [] {
      StepKeepsInv(w, ops[0]);
      RunIsFifo(Step(w, ops[0]), ops[1..]);
    }
  }

  /** Items queued ahead of a close still come out: that many takes hand over every
      accepted item and leave the queue empty. */
  lemma {:induction false} DrainAfterClose<T>(w: World<T>, ops: seq<Op<T>>)
    requires Inv(w) && |ops| == |w.q.cells| && forall i :: 0 <= i < |ops| ==> ops[i].Take?
    ensures Run(w, ops).taken == w.accepted && Run(w, ops).q.cells == []
    decreases |ops|
  {
    if ops != [] {
      StepKeepsInv(w, ops[0]);
      DrainAfterClose(Step(w, ops[0]), ops[1..]);
    }
  }

  // ------------------------------------------------- when items are accepted and come out

  /** The sum of the costs of the first n queued items. */
  function CostOf<T>(cells: seq<Cell<T>>, n: nat): nat
    requires n <= |cells|
  {
    if n == 0 then 0 else CostOf(cells, n - 1) + cells[n - 1].cost
  }

  lemma {:induction false} CostIsBytes<T>(cells: seq<Cell<T>>, n: nat)
    requires n <= |cells|
    ensures CostOf(cells, n) == Bytes(cells[..n])
    decreases n
  {
    if n > 0 {
      CostIsBytes(cells, n - 1);
      assert cells[..n] == cells[..n - 1] + [cells[n - 1]];
      BytesSnoc(cells[..n - 1], cells[n - 1]);
    }
  }

  /** The item fits under the ceiling, beside what is queued. */
  predicate FitsIn<T>(q: Queue<T>, c: Cell<T>) {
    CostOf(q.cells, |q.cells|) + c.cost <= q.cap
  }

  /** An item is accepted, at the back, if and only if the queue is neither closed nor
      overflowed and the item fits; it overflows exactly when an item does not fit. */
  lemma AcceptedIff<T>(q: Queue<T>, c: Cell<T>)
    ensures var (q', ok) := Enqueued(q, c);
            && (ok <==> !q.closed && !q.overflow && FitsIn(q, c))
            && q'.cells == (if ok then q.cells + [c] else q.cells)
            && (q'.overflow <==> q.overflow || (!q.closed && !FitsIn(q, c)))
            && q'.closed == q.closed && q'.cap == q.cap
  {
    CostIsBytes(q.cells, |q.cells|);
    assert q.cells[..|q.cells|] == q.cells;
  }

  /** The front item comes out, if there is one, of an open queue and of a closed one. */
  lemma FrontComesOut<T>(q: Queue<T>)
    ensures var (q', r) := Dequeued(q);
            && (r.Some? <==> q.cells != [])
            && (r.Some? ==> q.cells == [Cell(r.value, q.cells[0].cost)] + q'.cells)
            && q' == q.(cells := q'.cells) && (r.None? ==> q' == q)
  {
  }

  /** Every item of the run fits when it is put, and nobody closes the queue. */
  predicate AllFit<T>(w: World<T>, ops: seq<Op<T>>)
    decreases |ops|
  {
    ops == [] ||
    (!ops[0].Shut? && (ops[0].Put? ==> FitsIn(w.q, ops[0].c)) && AllFit(Step(w, ops[0]), ops[1..]))
  }

  function ItemsPut<T>(ops: seq<Op<T>>): seq<T> {
    if ops == [] then []
    else (if ops[0].Put? then [ops[0].c.item] else []) + ItemsPut(ops[1..])
  }

  /** Over every run: as long as no item fails to fit and nobody closes the queue, every
      item put is accepted, in order. */
  lemma {:induction false} AllAccepted<T>(w: World<T>, ops: seq<Op<T>>)
    requires !w.q.closed && !w.q.overflow && AllFit(w, ops)
    ensures var w' := Run(w, ops);
            w'.accepted == w.accepted + ItemsPut(ops) && !w'.q.closed && !w'.q.overflow
    decreases |ops|
  {
    hide FitsIn, Enqueued;
    if ops != [] {
      if ops[0].Put? { AcceptedIff(w.q, ops[0].c); }
      var w1 := Step(w, ops[0]);
      AllAccepted(w1, ops[1..]);
      assert w1.accepted + ItemsPut(ops[1..]) == w.accepted + ItemsPut(ops);
    }
  }

  /** And the first item that does not fit closes the queue to all later ones. */
  lemma FirstMisfit<T>(w: World<T>, ops: seq<Op<T>>, c: Cell<T>, more: seq<Op<T>>)
    requires Inv(w) && !w.q.closed && !w.q.overflow && AllFit(w, ops) && !FitsIn(Run(w, ops).q, c)
    ensures Run(Step(Run(w, ops), Put(c)), more).accepted == w.accepted + ItemsPut(ops)
  {
    hide FitsIn, Enqueued;
    AllAccepted(w, ops);
    RunIsFifo(w, ops);
    var m := Run(w, ops);
    AcceptedIff(m.q, c);
    StepKeepsInv(m, Put(c));
    RunIsFifo(Step(m, Put(c)), more);
  }

  // --------------------------------------------------------------------- the ring

  /** The i-th cell of a ring of n slots starting at head. */
  function Index(head: nat, i: nat, n: nat): nat {
    if head + i >= n then head + i - n else head + i
  }

  /** The copy loop of growLocked: the queued cells at the start of new arrays. */
  method Unrolled<T(0)>(items: array<T>, sizes: array<nat>, head: nat, count: nat, n: nat)
    returns (xs: array<T>, ss: array<nat>)
    requires items.Length == sizes.Length && count <= items.Length && count <= n
    requires head < items.Length || (head == 0 && items.Length == 0)
    ensures fresh(xs) && fresh(ss) && xs.Length == ss.Length == n && xs as object != ss
    ensures forall j :: 0 <= j < count ==>
              xs[j] == items[Index(head, j, items.Length)] && ss[j] == sizes[Index(head, j, items.Length)]
  {
    xs, ss := new T[n], new nat[n];
    var i := 0;
    while i < count
      invariant 0 <= i <= count
      invariant forall j :: 0 <= j < i ==>
                  xs[j] == items[Index(head, j, items.Length)] && ss[j] == sizes[Index(head, j, items.Length)]
    {
      var idx := Index(head, i, items.Length);
      xs[i], ss[i] := items[idx], sizes[idx];
      i := i + 1;
    }
  }

  class Ring<T(0)> {
    var items: array<T>
    var sizes: array<nat>
    var head: nat
    var count: nat
    var bytes: nat
    const cap: nat
    var closed: bool
    var overflow: bool

    ghost predicate Valid()
      reads this, items, sizes
    {
      && items.Length == sizes.Length && items as object != sizes
      && count <= items.Length && (head < items.Length || (head == 0 && items.Length == 0))
      && bytes == Bytes(Cells()) <= cap
    }

    ghost function Cells(): (r: seq<Cell<T>>)
      reads this, items, sizes
      requires items.Length == sizes.Length
      requires count <= items.Length && (head < items.Length || (head == 0 && items.Length == 0))
      ensures |r| == count
    {
      seq(count, i requires 0 <= i < count reads this, items, sizes
          requires items.Length == sizes.Length && count <= items.Length && head < items.Length =>
        Cell(items[Index(head, i, items.Length)], sizes[Index(head, i, items.Length)]))
    }

    ghost function Model(): Queue<T>
      reads this, items, sizes
      requires Valid()
    {
      Queue(Cells(), cap, closed, overflow)
    }

    constructor (capBytes: int)
      ensures Valid() && Model() == Queue([], if capBytes <= 0 then DEFAULT_CAP else capBytes, false, false)
      ensures fresh(items) && fresh(sizes)
    {
      cap := if capBytes <= 0 then DEFAULT_CAP else capBytes;
      items, sizes := new T[0], new nat[0];
      head, count, bytes, closed, overflow := 0, 0, 0, false, false;
    }

    /** Doubles the ring, moving the queued cells to its start. */
    method Grow()
      requires Valid()
      modifies this`items, this`sizes, this`head
      ensures Valid() && Cells() == old(Cells()) && fresh(items) && fresh(sizes)
      ensures head == 0 && count < items.Length
      ensures items.Length == if 2 * old(items.Length) < INIT_ITEMS then INIT_ITEMS else 2 * old(items.Length)
    {
      hide Bytes;
      var n := 2 * items.Length;
      if n < INIT_ITEMS { n := INIT_ITEMS; }
      ghost var cells := Cells();
      items, sizes := Unrolled(items, sizes, head, count, n);
      head := 0;
      assert Cells() == cells;
    }

    method Enqueue(item: T, nbytes: nat) returns (ok: bool)
      requires Valid()
      modifies this, items, sizes
      ensures Valid() && (Model(), ok) == Enqueued(old(Model()), Cell(item, nbytes))
      ensures ok <==> !old(closed) && !old(overflow) && FitsIn(old(Model()), Cell(item, nbytes))
      ensures (items == old(items) && sizes == old(sizes)) || (fresh(items) && fresh(sizes))
    {
      hide Bytes, FitsIn;
      AcceptedIff(Model(), Cell(item, nbytes));
      if closed || overflow { return false; }
      if bytes + nbytes > cap {
        overflow := true;
        assert Cells() == old(Cells());
        return false;
      }
      if count == items.Length { Grow(); }
      ghost var cells := Cells();
      var idx := Index(head, count, items.Length);
      items[idx], sizes[idx] := item, nbytes;
      count, bytes := count + 1, bytes + nbytes;
      BytesSnoc(cells, Cell(item, nbytes));
      assert Cells() == cells + [Cell(item, nbytes)];
      return true;
    }

    /** The non-blocking core of Dequeue and TryDequeue. */
    method TryDequeue() returns (r: Option<T>)
      requires Valid()
      modifies this, items
      ensures Valid() && (Model(), r) == Dequeued(old(Model()))
      ensures items == old(items) && sizes == old(sizes)
    {
      if count == 0 { return None; }
      ghost var cells := Cells();
      var it, n := items[head], sizes[head];
      assert cells[0] == Cell(it, n);
      var zero: T := *;
      items[head] := zero;
      head := if head + 1 == items.Length then 0 else head + 1;
      count, bytes := count - 1, bytes - n;
      assert Cells() == cells[1..];
      return Some(it);
    }

    method Close()
      requires Valid()
      modifies this`closed
      ensures Valid() && Model() == old(Model()).(closed := true)
    {
      closed := true;
      assert Cells() == old(Cells());
    }
  }
}
