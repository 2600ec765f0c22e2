/**
 Resumable WebSocket sessions (lib/wssession/session.go): a bounded replay buffer that
 lets a client reconnect and miss nothing.  Every method runs under the session lock, so
 a run is a sequence of operations.

 A sink accepts pushes until it first refuses one and refuses for ever after, which is
 what the queue behind it does; `willing` says which push numbers it would accept.
 */
module WsSession {
  import opened Basics

  datatype Push<V> = Push(seqNo: nat, at: int, val: V)

  /** An attachment: the number the client reported, and what the sink has accepted. */
  datatype Sink<V> = Sink(token: nat, from: nat, willing: nat -> bool, got: seq<(nat, V)>, refused: bool)

  datatype State<V> = State(nextSeq: nat, buf: seq<Push<V>>, sink: Option<Sink<V>>, aborted: seq<nat>, expired: bool)

  datatype Config = Config(window: int, maxMsgs: nat)

  // ------------------------------------------------------------------ operations

  function Offer<V>(s: Sink<V>, q: nat, v: V): Sink<V> {
    if s.refused || !s.willing(q) then s.(refused := true) else s.(got := s.got + [(q, v)])
  }

  /** `trimLocked`: drop pushes beyond the count or older than the window. */
  function Trim<V>(c: Config, buf: seq<Push<V>>, now: int): seq<Push<V>> {
    if buf != [] && (|buf| > c.maxMsgs || buf[0].at < now - c.window) then Trim(c, buf[1..], now) else buf
  }

  function Delivered<V>(c: Config, s: State<V>, now: int, v: V): State<V> {
    if s.expired then s
    else
      var q := s.nextSeq + 1;
      s.(nextSeq := q,
         buf := Trim(c, s.buf + [Push(q, now, v)], now),
         sink := if s.sink.None? then None else Some(Offer(s.sink.value, q, v)))
  }

  /** The gap check of Attach, on the trimmed buffer. */
  predicate Resumable<V>(s: State<V>, buf: seq<Push<V>>, lastSeq: nat) {
    lastSeq >= s.nextSeq || (buf != [] && lastSeq + 1 >= s.nextSeq - |buf| + 1)
  }

  /** The replay loop: buffered pushes after lastSeq, stopping at the first refusal. */
  function Replay<V>(s: Sink<V>, buf: seq<Push<V>>, lastSeq: nat): Sink<V>
    decreases |buf|
  {
    if buf == [] then s
    else if buf[0].seqNo <= lastSeq then Replay(s, buf[1..], lastSeq)
    else
      var s1 := Offer(s, buf[0].seqNo, buf[0].val);
      if s1.refused then s1 else Replay(s1, buf[1..], lastSeq)
  }

  /** Attach: the new state, whether it succeeded, and the aborted replies reported.
      A failed attach still trims the buffer. */
  function Attached<V>(c: Config, s: State<V>, now: int, lastSeq: nat, token: nat, willing: nat -> bool)
    : (State<V>, bool, seq<nat>)
  {
    if s.expired then (s, false, [])
    else
      var buf := Trim(c, s.buf, now);
      if !Resumable(s, buf, lastSeq) then (s.(buf := buf), false, [])
      else
        var start := Sink(token, lastSeq, willing, [], false);
        var sink := if lastSeq < s.nextSeq then Replay(start, buf, lastSeq) else start;
        (s.(buf := buf, sink := Some(sink), aborted := []), true, s.aborted)
  }

  function Detached<V>(s: State<V>, token: nat): State<V> {
    if s.expired || s.sink.None? || s.sink.value.token != token then s else s.(sink := None)
  }

  function WithAborted<V>(s: State<V>, seqs: seq<nat>): State<V> {
    if s.expired then s else s.(aborted := s.aborted + seqs)
  }

  function Ended<V>(s: State<V>): State<V> {
    s.(expired := true, sink := None)
  }

  // ------------------------------------------------------------------------ runs

  datatype Op<V> =
    | DoDeliver(now: int, v: V)
    | DoAttach(now: int, lastSeq: nat, token: nat, willing: nat -> bool)
    | DoDetach(token: nat)
    | DoRecord(seqs: seq<nat>)
    | DoExpire

  /** A session with its past: the values stamped, the sinks no longer attached, and the
      aborted replies recorded and reported so far. */
  datatype World<V> = World(s: State<V>, history: seq<V>, gone: seq<Sink<V>>, recorded: seq<nat>, reported: seq<nat>)

  function Start<V>(): World<V> {
    World(State(0, [], None, [], false), [], [], [], [])
  }

  /** The sinks the step takes out of service. */
  function Displaced<V>(s: State<V>, s': State<V>, replaced: bool): seq<Sink<V>> {
    if s.sink.Some? && (replaced || s'.sink.None?) then [s.sink.value] else []
  }

  function Step<V>(c: Config, w: World<V>, op: Op<V>): World<V> {
    match op
    case DoDeliver(now, v) =>
      w.(s := Delivered(c, w.s, now, v), history := if w.s.expired then w.history else w.history + [v])
    case DoAttach(now, lastSeq, token, willing) =>
      var (s', ok, aborted) := Attached(c, w.s, now, lastSeq, token, willing);
      w.(s := s', gone := w.gone + Displaced(w.s, s', ok), reported := w.reported + aborted)
    case DoDetach(token) => w.(s := Detached(w.s, token), gone := w.gone + Displaced(w.s, Detached(w.s, token), false))
    case DoRecord(seqs) =>
      w.(s := WithAborted(w.s, seqs), recorded := if w.s.expired then w.recorded else w.recorded + seqs)
    case DoExpire => w.(s := Ended(w.s), gone := w.gone + Displaced(w.s, Ended(w.s), false))
  }

  /** The client never reports a number that was not stamped yet. */
  predicate Honest<V>(w: World<V>, op: Op<V>) {
    op.DoAttach? ==> op.lastSeq <= w.s.nextSeq
  }

  predicate AllHonest<V>(c: Config, w: World<V>, ops: seq<Op<V>>)
    decreases |ops|
  {
    ops == [] || (Honest(w, ops[0]) && AllHonest(c, Step(c, w, ops[0]), ops[1..]))
  }

  function Run<V>(c: Config, w: World<V>, ops: seq<Op<V>>): World<V>
    decreases |ops|
  {
    if ops == [] then w else Run(c, Step(c, w, ops[0]), ops[1..])
  }

  // ------------------------------------------------------------------- invariant

  /** The buffer is the last |buf| pushes, in order. */
  ghost predicate Contiguous<V>(buf: seq<Push<V>>, history: seq<V>) {
    && |buf| <= |history|
    && forall i :: 0 <= i < |buf| ==>
         buf[i].seqNo == |history| - |buf| + 1 + i && buf[i].val == history[buf[i].seqNo - 1]
  }

  /** What the sink accepted is exactly from+1, from+2, ... with the stamped values. */
  ghost predicate Gapless<V>(k: Sink<V>, history: seq<V>) {
    && k.from + |k.got| <= |history|
    && forall i :: 0 <= i < |k.got| ==> k.got[i] == (k.from + 1 + i, history[k.from + i])
  }

  ghost predicate Inv<V>(w: World<V>) {
    && w.s.nextSeq == |w.history|
    && Contiguous(w.s.buf, w.history)
    && (w.s.sink.Some? ==>
          && Gapless(w.s.sink.value, w.history)
          && (!w.s.sink.value.refused ==> w.s.sink.value.from + |w.s.sink.value.got| == w.s.nextSeq))
    && (forall j :: 0 <= j < |w.gone| ==> Gapless(w.gone[j], w.history))
    && w.recorded == w.reported + w.s.aborted
  }

  lemma {:induction false} TrimContiguous<V>(c: Config, buf: seq<Push<V>>, now: int, history: seq<V>)
    requires Contiguous(buf, history)
    ensures Contiguous(Trim(c, buf, now), history)
  {
    if buf != [] && (|buf| > c.maxMsgs || buf[0].at < now - c.window) {
      TrimContiguous(c, buf[1..], now, history);
    }
  }

  lemma GaplessGrows<V>(k: Sink<V>, history: seq<V>, v: V)
    requires Gapless(k, history)
    ensures Gapless(k, history + [v])
  {
  }

  lemma OfferNext<V>(k: Sink<V>, history: seq<V>, q: nat, v: V)
    requires Gapless(k, history) && (!k.refused ==> q == k.from + |k.got| + 1)
    requires 1 <= q <= |history| && history[q - 1] == v
    ensures Gapless(Offer(k, q, v), history)
    ensures !Offer(k, q, v).refused ==> k.from + |Offer(k, q, v).got| == q
  {
  }

  lemma DeliverKeepsInv<V>(c: Config, w: World<V>, now: int, v: V)
    requires Inv(w)
    ensures Inv(Step(c, w, DoDeliver(now, v)))
  {
    if !w.s.expired {
      var h := w.history + [v];
      var buf := w.s.buf + [Push(w.s.nextSeq + 1, now, v)];
      assert Contiguous(buf, h);
      TrimContiguous(c, buf, now, h);
      if w.s.sink.Some? {
        GaplessGrows(w.s.sink.value, w.history, v);
        OfferNext(w.s.sink.value, h, w.s.nextSeq + 1, v);
      }
      forall j | 0 <= j < |w.gone| ensures Gapless(w.gone[j], h) { GaplessGrows(w.gone[j], w.history, v); }
    }
  }

  /** Replaying a contiguous buffer from lastSeq gives no gap and no repeat. */
  lemma {:induction false} ReplayGapless<V>(k: Sink<V>, buf: seq<Push<V>>, lastSeq: nat, history: seq<V>)
    requires Contiguous(buf, history) && Gapless(k, history) && !k.refused && k.from == lastSeq
    requires k.from + |k.got| >= |history| - |buf|
    requires k.got != [] ==> k.from + |k.got| == |history| - |buf|
    ensures var r := Replay(k, buf, lastSeq);
            && Gapless(r, history) && r.from == k.from && r.token == k.token
            && (!r.refused ==> r.from + |r.got| == |history|)
    decreases |buf|
  {
    if buf != [] {
      assert Contiguous(buf[1..], history);
      if buf[0].seqNo <= lastSeq {
        ReplayGapless(k, buf[1..], lastSeq, history);
      } else {
        OfferNext(k, history, buf[0].seqNo, buf[0].val);
        var s1 := Offer(k, buf[0].seqNo, buf[0].val);
        if !s1.refused { ReplayGapless(s1, buf[1..], lastSeq, history); }
      }
    }
  }

  lemma AttachKeepsInv<V>(c: Config, w: World<V>, now: int, lastSeq: nat, token: nat, willing: nat -> bool)
    requires Inv(w) && lastSeq <= w.s.nextSeq
    ensures Inv(Step(c, w, DoAttach(now, lastSeq, token, willing)))
  {
    if !w.s.expired {
      TrimContiguous(c, w.s.buf, now, w.history);
      var buf := Trim(c, w.s.buf, now);
      if Resumable(w.s, buf, lastSeq) && lastSeq < w.s.nextSeq {
        ReplayGapless(Sink(token, lastSeq, willing, [], false), buf, lastSeq, w.history);
      }
    }
  }

  lemma StepKeepsInv<V>(c: Config, w: World<V>, op: Op<V>)
    requires Inv(w) && Honest(w, op)
    ensures Inv(Step(c, w, op))
  {
    match op
    case DoDeliver(now, v) => DeliverKeepsInv(c, w, now, v);
    case DoAttach(now, lastSeq, token, willing) => AttachKeepsInv(c, w, now, lastSeq, token, willing);
    case DoDetach(_) =>
    case DoRecord(_) =>
    case DoExpire =>
  }

  lemma {:induction false} RunKeepsInv<V>(c: Config, w: World<V>, ops: seq<Op<V>>)
    requires Inv(w) && AllHonest(c, w, ops)
    ensures Inv(Run(c, w, ops))
    decreases |ops|
  {
    if ops != [] {
      StepKeepsInv(c, w, ops[0]);
      RunKeepsInv(c, Step(c, w, ops[0]), ops[1..]);
    }
  }

  /** In every run of honest clients, every sink ever attached has accepted exactly the
      pushes after the number its client reported, in order, with no gap and no repeat;
      an attached sink that never refused is up to date; and every aborted reply is
      reported to exactly one attach, in the order recorded. */
  lemma NoGapNoRepeat<V>(c: Config, ops: seq<Op<V>>)
    requires AllHonest(c, Start(), ops)
    ensures var w := Run(c, Start(), ops);
            && (forall j :: 0 <= j < |w.gone| ==> Gapless(w.gone[j], w.history))
            && (w.s.sink.Some? ==> Gapless(w.s.sink.value, w.history))
            && (w.s.sink.Some? && !w.s.sink.value.refused ==>
                  w.s.sink.value.from + |w.s.sink.value.got| == |w.history|)
            && w.recorded == w.reported + w.s.aborted
  {
    RunKeepsInv(c, Start(), ops);
  }

  /** The stream of pushes with numbers from+1 .. to. */
  ghost predicate IsStream<V>(got: seq<(nat, V)>, from: nat, history: seq<V>) {
    from + |got| <= |history| &&
    forall i :: 0 <= i < |got| ==> got[i] == (from + 1 + i, history[from + i])
  }

  /** Nobody attaches, the session lives on, and only connections other than this one
      detach. */
  predicate Quiet<V>(ops: seq<Op<V>>, token: nat) {
    forall i :: 0 <= i < |ops| ==>
      !ops[i].DoAttach? && !ops[i].DoExpire? && (ops[i].DoDetach? ==> ops[i].token != token)
  }

  /** The attached sink is still this connection's, and was handed over where it was. */
  predicate StillAttached<V>(w: World<V>, token: nat, from: nat) {
    !w.s.expired && w.s.sink.Some? && w.s.sink.value.token == token && w.s.sink.value.from == from
  }

  lemma QuietStep<V>(c: Config, w: World<V>, op: Op<V>, token: nat, from: nat)
    requires StillAttached(w, token, from) && Quiet([op], token)
    ensures StillAttached(Step(c, w, op), token, from) && w.history <= Step(c, w, op).history && Honest(w, op)
  {
    assert [op][0] == op;
  }

  lemma {:induction false} QuietRun<V>(c: Config, w: World<V>, ops: seq<Op<V>>, token: nat, from: nat)
    requires StillAttached(w, token, from) && Quiet(ops, token)
    ensures StillAttached(Run(c, w, ops), token, from)
    ensures w.history <= Run(c, w, ops).history && AllHonest(c, w, ops)
    decreases |ops|
  {
    hide Step, StillAttached, Honest;
    if ops != [] {
      assert Quiet([ops[0]], token) by { assert [ops[0]][0] == ops[0]; }
      QuietStep(c, w, ops[0], token, from);
      assert Quiet(ops[1..], token) by { assert forall i :: 0 <= i < |ops[1..]| ==> ops[1..][i] == ops[i + 1]; }
      QuietRun(c, Step(c, w, ops[0]), ops[1..], token, from);
    }
  }

  lemma {:induction false} ReplayKeepsOwner<V>(k: Sink<V>, buf: seq<Push<V>>, lastSeq: nat)
    ensures Replay(k, buf, lastSeq).token == k.token && Replay(k, buf, lastSeq).from == k.from
    decreases |buf|
  {
    if buf != [] {
      ReplayKeepsOwner(k, buf[1..], lastSeq);
      ReplayKeepsOwner(Offer(k, buf[0].seqNo, buf[0].val), buf[1..], lastSeq);
    }
  }

  lemma AttachTakesOver<V>(c: Config, w: World<V>, now: int, lastSeq: nat, token: nat, willing: nat -> bool)
    requires Attached(c, w.s, now, lastSeq, token, willing).1
    ensures StillAttached(Step(c, w, DoAttach(now, lastSeq, token, willing)), token, lastSeq)
    ensures Step(c, w, DoAttach(now, lastSeq, token, willing)).history == w.history
  {
    ReplayKeepsOwner(Sink(token, lastSeq, willing, [], false), Trim(c, w.s.buf, now), lastSeq);
  }

  lemma GaplessLater<V>(k: Sink<V>, history: seq<V>, later: seq<V>)
    requires Gapless(k, history) && history <= later
    ensures Gapless(k, later)
  {
  }

  lemma StreamsJoin<V>(a: Sink<V>, n: nat, b: Sink<V>, history: seq<V>)
    requires Gapless(a, history) && Gapless(b, history) && n <= |a.got| && b.from == a.from + n
    ensures IsStream(a.got[..n] + b.got, a.from, history)
  {
  }

  /** Reconnecting is seamless.  In any honest run, take any sink that was ever attached
      and a client that received the first n pushes it accepted and then reconnects with
      the number of the last of them.  If the attach succeeds, then whatever happens until
      the next attach or expiry, stale detaches included, the two connections together
      carry one stream with no gap and no repeat, and it reaches the latest push unless
      the new sink refused one. */
  lemma ReconnectIsSeamless<V>(c: Config, pre: seq<Op<V>>, a: Sink<V>, n: nat, now: int, token: nat,
                               willing: nat -> bool, post: seq<Op<V>>)
    requires AllHonest(c, Start(), pre)
    requires var w := Run(c, Start(), pre); (w.s.sink == Some(a) || a in w.gone) && n <= |a.got|
    requires Attached(c, Run(c, Start(), pre).s, now, a.from + n, token, willing).1
    requires Quiet(post, token)
    ensures var w := Run(c, Step(c, Run(c, Start(), pre), DoAttach(now, a.from + n, token, willing)), post);
            && w.s.sink.Some? && w.s.sink.value.token == token
            && IsStream(a.got[..n] + w.s.sink.value.got, a.from, w.history)
            && (!w.s.sink.value.refused ==> a.from + n + |w.s.sink.value.got| == |w.history|)
  {
    hide Run, Step, AllHonest, Attached, Quiet, IsStream;
    var op := DoAttach(now, a.from + n, token, willing);
    var w0 := Run(c, Start(), pre);
    RunKeepsInv(c, Start(), pre);
    assert Gapless(a, w0.history);
    var w1 := Step(c, w0, op);
    StepKeepsInv(c, w0, op);
    AttachTakesOver(c, w0, now, a.from + n, token, willing);
    QuietRun(c, w1, post, token, a.from + n);
    RunKeepsInv(c, w1, post);
    var w := Run(c, w1, post);
    GaplessLater(a, w0.history, w.history);
    StreamsJoin(a, n, w.s.sink.value, w.history);
  }

  predicate Buffered<V>(buf: seq<Push<V>>, q: int) {
    exists i :: 0 <= i < |buf| && buf[i].seqNo == q
  }

  predicate AllBuffered<V>(buf: seq<Push<V>>, lastSeq: nat, to: nat) {
    forall q :: lastSeq < q <= to ==> Buffered(buf, q)
  }

  /** Attach succeeds exactly when the session is live and every push after lastSeq is
      still buffered, that is, none that the client needs was trimmed. */
  lemma AttachSucceedsExactly<V>(c: Config, w: World<V>, now: int, lastSeq: nat, token: nat, willing: nat -> bool,
                                 buf: seq<Push<V>>)
    requires Inv(w) && lastSeq <= w.s.nextSeq && buf == Trim(c, w.s.buf, now)
    ensures Attached(c, w.s, now, lastSeq, token, willing).1 <==> !w.s.expired && AllBuffered(buf, lastSeq, w.s.nextSeq)
  {
    TrimContiguous(c, w.s.buf, now, w.history);
    var oldest := w.s.nextSeq - |buf| + 1;
    if Resumable(w.s, buf, lastSeq) {
      forall q | lastSeq < q <= w.s.nextSeq ensures Buffered(buf, q) {
        assert buf[q - oldest].seqNo == q;
      }
    } else {
      assert !Buffered(buf, lastSeq + 1);
    }
  }

  // --------------------------------------------------------------- what stays buffered

  /** The push at i is one too many, or older than the window. */
  predicate Expendable<V>(c: Config, buf: seq<Push<V>>, i: nat, now: int)
    requires i < |buf|
  {
    |buf| - i > c.maxMsgs || buf[i].at < now - c.window
  }

  /** What trimming leaves is the end of the buffer from n on: every push dropped was one too
      many or older than the window when its turn came, and the first one kept is neither. */
  ghost predicate TrimmedTo<V>(c: Config, buf: seq<Push<V>>, now: int, n: nat, kept: seq<Push<V>>) {
    && n <= |buf| && kept == buf[n..]
    && (forall i :: 0 <= i < n ==> Expendable(c, buf, i, now))
    && (n < |buf| ==> !Expendable(c, buf, n, now))
  }

  lemma {:induction false} TrimIsExact<V>(c: Config, buf: seq<Push<V>>, now: int) returns (n: nat)
    ensures TrimmedTo(c, buf, now, n, Trim(c, buf, now))
    decreases |buf|
  {
    if buf != [] && Expendable(c, buf, 0, now) {
      var rest := buf[1..];
      var m := TrimIsExact(c, rest, now);
      n := m + 1;
      assert rest[m..] == buf[n..];
      forall i | 0 <= i < n ensures Expendable(c, buf, i, now) {
        if i > 0 { assert rest[i - 1] == buf[i] && Expendable(c, rest, i - 1, now); }
      }
      if n < |buf| { assert rest[m] == buf[n] && !Expendable(c, rest, m, now); }
    } else {
      n := 0;
      assert buf[0..] == buf;
    }
  }

  // --------------------------------------------------------- attaching, by the clock

  /** A session with the moments at which its pushes were stamped and the latest moment any
      operation has seen. */
  datatype Timed<V> = Timed(w: World<V>, times: seq<int>, clock: int)

  predicate ReadsClock<V>(op: Op<V>) {
    op.DoDeliver? || op.DoAttach?
  }

  function TimedStep<V>(c: Config, t: Timed<V>, op: Op<V>): Timed<V> {
    Timed(Step(c, t.w, op),
          if op.DoDeliver? && !t.w.s.expired then t.times + [op.now] else t.times,
          if ReadsClock(op) then op.now else t.clock)
  }

  /** The clients are honest and the clock never goes back. */
  predicate AllOnTime<V>(c: Config, t: Timed<V>, ops: seq<Op<V>>)
    decreases |ops|
  {
    ops == [] ||
    (&& Honest(t.w, ops[0]) && (ReadsClock(ops[0]) ==> ops[0].now >= t.clock)
     && AllOnTime(c, TimedStep(c, t, ops[0]), ops[1..]))
  }

  function TimedRun<V>(c: Config, t: Timed<V>, ops: seq<Op<V>>): Timed<V>
    decreases |ops|
  {
    if ops == [] then t else TimedRun(c, TimedStep(c, t, ops[0]), ops[1..])
  }

  /** The buffered pushes carry their moments, the moments do not decrease, and every push no
      longer buffered has as many behind it as are allowed, or is older than the window. */
  ghost predicate Kept<V>(c: Config, buf: seq<Push<V>>, times: seq<int>, clock: int) {
    && |buf| <= |times|
    && (forall i, j :: 0 <= i < j < |times| ==> times[i] <= times[j])
    && (forall i :: 0 <= i < |times| ==> times[i] <= clock)
    && (forall i :: 0 <= i < |buf| ==> buf[i].at == times[|times| - |buf| + i])
    && (forall i :: 0 <= i < |times| - |buf| ==> |times| - i > c.maxMsgs || times[i] < clock - c.window)
  }

  lemma TrimKeeps<V>(c: Config, buf: seq<Push<V>>, times: seq<int>, clock: int, now: int)
    requires Kept(c, buf, times, clock) && now >= clock
    ensures Kept(c, Trim(c, buf, now), times, now)
  {
    hide Trim;
    var n := TrimIsExact(c, buf, now);
    var kept := Trim(c, buf, now);
    forall i | 0 <= i < |times| - |kept| ensures |times| - i > c.maxMsgs || times[i] < now - c.window {
      if i >= |times| - |buf| {
        var j := i - (|times| - |buf|);
        assert Expendable(c, buf, j, now) && buf[j].at == times[i];
      }
    }
  }

  lemma StampKeeps<V>(c: Config, buf: seq<Push<V>>, times: seq<int>, clock: int, p: Push<V>)
    requires Kept(c, buf, times, clock) && p.at >= clock
    ensures Kept(c, buf + [p], times + [p.at], p.at)
  {
  }

  ghost predicate TimedInv<V>(c: Config, t: Timed<V>) {
    Inv(t.w) && |t.times| == |t.w.history| && Kept(c, t.w.s.buf, t.times, t.clock)
  }

  lemma LaterKeeps<V>(c: Config, buf: seq<Push<V>>, times: seq<int>, clock: int, now: int)
    requires Kept(c, buf, times, clock) && now >= clock
    ensures Kept(c, buf, times, now)
  {
  }

  lemma TimedStepKeepsInv<V>(c: Config, t: Timed<V>, op: Op<V>)
    requires TimedInv(c, t) && Honest(t.w, op) && (ReadsClock(op) ==> op.now >= t.clock)
    ensures TimedInv(c, TimedStep(c, t, op))
  {
    hide Kept, Inv, Trim;
    StepKeepsInv(c, t.w, op);
    var s := t.w.s;
    if ReadsClock(op) { LaterKeeps(c, s.buf, t.times, t.clock, op.now); }
    if op.DoDeliver? && !s.expired {
      var p := Push(s.nextSeq + 1, op.now, op.v);
      StampKeeps(c, s.buf, t.times, t.clock, p);
      TrimKeeps(c, s.buf + [p], t.times + [op.now], op.now, op.now);
    } else if op.DoAttach? && !s.expired {
      TrimKeeps(c, s.buf, t.times, t.clock, op.now);
    }
  }

  lemma {:induction false} TimedRunKeepsInv<V>(c: Config, t: Timed<V>, ops: seq<Op<V>>)
    requires TimedInv(c, t) && AllOnTime(c, t, ops)
    ensures TimedInv(c, TimedRun(c, t, ops))
    decreases |ops|
  {
    hide TimedInv, TimedStep, Honest;
    if ops != [] {
      TimedStepKeepsInv(c, t, ops[0]);
      TimedRunKeepsInv(c, TimedStep(c, t, ops[0]), ops[1..]);
    }
  }

  /** No push after this many is older than the cutoff. */
  predicate NoneOlder(times: seq<int>, after: nat, cutoff: int) {
    forall i :: after <= i < |times| ==> times[i] >= cutoff
  }

  /** When a client can resume, by numbers and clock alone.  After any run in which clients
      are honest and the clock does not go back, an attach succeeds if and only if the
      session is live, no more pushes were missed than may be buffered, and none of these is
      older than the window. */
  lemma AttachSucceedsIff<V>(c: Config, t0: int, ops: seq<Op<V>>, now: int, lastSeq: nat, token: nat,
                             willing: nat -> bool)
    requires AllOnTime(c, Timed(Start(), [], t0), ops)
    requires var t := TimedRun(c, Timed(Start(), [], t0), ops); now >= t.clock && lastSeq <= t.w.s.nextSeq
    ensures var t := TimedRun(c, Timed(Start(), [], t0), ops);
            && |t.times| == t.w.s.nextSeq
            && (Attached(c, t.w.s, now, lastSeq, token, willing).1 <==>
                  && !t.w.s.expired && t.w.s.nextSeq - lastSeq <= c.maxMsgs
                  && NoneOlder(t.times, lastSeq, now - c.window))
  {
    hide TimedRun, AllOnTime, Trim, Kept, Attached;
    var start := Timed(Start<V>(), [], t0);
    NothingStamped<V>(c, t0);
    TimedRunKeepsInv(c, start, ops);
    var t := TimedRun(c, start, ops);
    TrimKeeps(c, t.w.s.buf, t.times, t.clock, now);
    TrimContiguous(c, t.w.s.buf, now, t.w.history);
    var n := TrimIsExact(c, t.w.s.buf, now);
    NotExpendable(c, t.w.s.buf, now, n);
    AttachByClock(c, t.w.s, t.times, now, lastSeq, token, willing);
  }

  lemma NothingStamped<V>(c: Config, t0: int)
    ensures TimedInv(c, Timed(Start<V>(), [], t0))
  {
  }

  lemma NotExpendable<V>(c: Config, buf: seq<Push<V>>, now: int, n: nat)
    requires TrimmedTo(c, buf, now, n, Trim(c, buf, now))
    ensures var kept := Trim(c, buf, now); kept != [] ==> |kept| <= c.maxMsgs && kept[0].at >= now - c.window
  {
    hide Trim;
  }

  lemma AttachByClock<V>(c: Config, s: State<V>, times: seq<int>, now: int, lastSeq: nat, token: nat,
                         willing: nat -> bool)
    requires var kept := Trim(c, s.buf, now);
             && Kept(c, kept, times, now) && |times| == s.nextSeq && lastSeq <= s.nextSeq
             && (kept != [] ==> |kept| <= c.maxMsgs && kept[0].at >= now - c.window)
    ensures Attached(c, s, now, lastSeq, token, willing).1 <==>
            && !s.expired && s.nextSeq - lastSeq <= c.maxMsgs
            && NoneOlder(times, lastSeq, now - c.window)
  {
    hide Trim;
    var kept := Trim(c, s.buf, now);
    var oldest := s.nextSeq - |kept| + 1;
    if lastSeq < s.nextSeq {
      if kept != [] && lastSeq + 1 >= oldest {
        forall i | lastSeq <= i < |times| ensures times[i] >= now - c.window {
          assert times[oldest - 1] == kept[0].at <= times[i];
        }
      } else {
        assert 0 <= lastSeq < |times| - |kept|;
        assert |times| - lastSeq > c.maxMsgs || times[lastSeq] < now - c.window;
      }
    }
  }

  // ------------------------------------------------------------ why a sink stops taking

  /** A sink has taken only pushes it is willing to take, and has refused only if there is a
      next one and it is not willing to take that. */
  ghost predicate Fair<V>(k: Sink<V>, history: seq<V>) {
    && (forall i :: 0 <= i < |k.got| ==> k.willing(k.got[i].0))
    && (k.refused ==> k.from + |k.got| + 1 <= |history| && !k.willing(k.from + |k.got| + 1))
  }

  lemma OfferFair<V>(k: Sink<V>, history: seq<V>, q: nat, v: V)
    requires Fair(k, history) && (!k.refused ==> q == k.from + |k.got| + 1) && q <= |history|
    ensures Fair(Offer(k, q, v), history)
  {
  }

  lemma FairLater<V>(k: Sink<V>, history: seq<V>, v: V)
    requires Fair(k, history)
    ensures Fair(k, history + [v])
  {
  }

  lemma {:induction false} ReplayFair<V>(k: Sink<V>, buf: seq<Push<V>>, lastSeq: nat, history: seq<V>)
    requires Contiguous(buf, history) && Fair(k, history) && !k.refused && k.from == lastSeq
    requires k.from + |k.got| >= |history| - |buf|
    requires k.got != [] ==> k.from + |k.got| == |history| - |buf|
    ensures Fair(Replay(k, buf, lastSeq), history)
    decreases |buf|
  {
    hide Fair;
    if buf != [] {
      assert Contiguous(buf[1..], history);
      if buf[0].seqNo <= lastSeq {
        ReplayFair(k, buf[1..], lastSeq, history);
      } else {
        OfferFair(k, history, buf[0].seqNo, buf[0].val);
        var s1 := Offer(k, buf[0].seqNo, buf[0].val);
        if !s1.refused { ReplayFair(s1, buf[1..], lastSeq, history); }
      }
    }
  }

  ghost predicate AllFair<V>(w: World<V>) {
    && (w.s.sink.Some? ==> Fair(w.s.sink.value, w.history))
    && forall j :: 0 <= j < |w.gone| ==> Fair(w.gone[j], w.history)
  }

  lemma NewSinkFair<V>(token: nat, from: nat, willing: nat -> bool, history: seq<V>)
    ensures Fair(Sink(token, from, willing, [], false), history)
  {
  }

  lemma StepKeepsFair<V>(c: Config, w: World<V>, op: Op<V>)
    requires Inv(w) && AllFair(w) && Honest(w, op)
    ensures AllFair(Step(c, w, op))
  {
    hide Fair, Trim, Gapless;
    match op
    case DoDeliver(now, v) =>
      if !w.s.expired {
        if w.s.sink.Some? {
          FairLater(w.s.sink.value, w.history, v);
          OfferFair(w.s.sink.value, w.history + [v], w.s.nextSeq + 1, v);
        }
        forall j | 0 <= j < |w.gone| ensures Fair(w.gone[j], w.history + [v]) { FairLater(w.gone[j], w.history, v); }
      }
    case DoAttach(now, lastSeq, token, willing) =>
      TrimContiguous(c, w.s.buf, now, w.history);
      var buf := Trim(c, w.s.buf, now);
      NewSinkFair(token, lastSeq, willing, w.history);
      if Resumable(w.s, buf, lastSeq) && lastSeq < w.s.nextSeq {
        ReplayFair(Sink(token, lastSeq, willing, [], false), buf, lastSeq, w.history);
      }
    case DoDetach(_) =>
    case DoRecord(_) =>
    case DoExpire =>
  }

  lemma {:induction false} RunKeepsFair<V>(c: Config, w: World<V>, ops: seq<Op<V>>)
    requires Inv(w) && AllFair(w) && AllHonest(c, w, ops)
    ensures AllFair(Run(c, w, ops))
    decreases |ops|
  {
    hide Inv, AllFair, Step, Honest;
    if ops != [] {
      StepKeepsInv(c, w, ops[0]);
      StepKeepsFair(c, w, ops[0]);
      RunKeepsFair(c, Step(c, w, ops[0]), ops[1..]);
    }
  }

  /** In every run of honest clients, a sink stops taking pushes only at one it is not
      willing to take. */
  lemma SinksAreFair<V>(c: Config, ops: seq<Op<V>>)
    requires AllHonest(c, Start(), ops)
    ensures var w := Run(c, Start(), ops);
            && (w.s.sink.Some? ==> Fair(w.s.sink.value, w.history))
            && forall j :: 0 <= j < |w.gone| ==> Fair(w.gone[j], w.history)
  {
    hide Run, AllHonest, Fair;
    RunKeepsFair(c, Start(), ops);
  }

  /** A stale detach never displaces a newer sink: after a successful attach, whatever
      other connections' detaches come, and with any deliveries between, the sink stays
      until its own detach, the next attach or expiry; and a failed attach leaves the
      attachment and the aborted replies alone. */
  lemma StaleDetachIsIgnored<V>(c: Config, w: World<V>, now: int, lastSeq: nat, token: nat, willing: nat -> bool,
                                ops: seq<Op<V>>)
    requires Quiet(ops, token)
    ensures var (s', ok, _) := Attached(c, w.s, now, lastSeq, token, willing);
            && (ok ==> StillAttached(Run(c, Step(c, w, DoAttach(now, lastSeq, token, willing)), ops), token, lastSeq))
            && (!ok ==> s'.sink == w.s.sink && s'.aborted == w.s.aborted)
  {
    hide Run, Step, Quiet;
    if Attached(c, w.s, now, lastSeq, token, willing).1 {
      AttachTakesOver(c, w, now, lastSeq, token, willing);
      QuietRun(c, Step(c, w, DoAttach(now, lastSeq, token, willing)), ops, token, lastSeq);
    }
  }

  /** Why honesty is needed, and exactly when.  A client that attaches and has one push
      delivered to it sees neither a gap nor a repeat if and only if it did not report a
      number above the last one stamped: with such a number the attach always succeeds,
      and what comes next is a push the client claims to have. */
  lemma HonestyIsExact<V>(c: Config, w: World<V>, now: int, lastSeq: nat, token: nat, willing: nat -> bool, v: V)
    requires Inv(w) && !w.s.expired && willing(w.s.nextSeq + 1)
    ensures lastSeq > w.s.nextSeq ==> Attached(c, w.s, now, lastSeq, token, willing).1
    ensures var w' := Step(c, Step(c, w, DoAttach(now, lastSeq, token, willing)), DoDeliver(now, v));
            Attached(c, w.s, now, lastSeq, token, willing).1 ==>
            && w'.s.sink.Some?
            && (Gapless(w'.s.sink.value, w'.history) <==> lastSeq <= w.s.nextSeq)
            && (lastSeq > w.s.nextSeq ==> w'.s.sink.value.got == [(w.s.nextSeq + 1, v)])
  {
    var attach, deliver := DoAttach(now, lastSeq, token, willing), DoDeliver(now, v);
    if lastSeq <= w.s.nextSeq && Attached(c, w.s, now, lastSeq, token, willing).1 {
      hide Inv, Step, Attached, Gapless;
      StepKeepsInv(c, w, attach);
      StepKeepsInv(c, Step(c, w, attach), deliver);
      AttachTakesOver(c, w, now, lastSeq, token, willing);
      QuietStep(c, Step(c, w, attach), deliver, token, lastSeq);
      SinkIsGapless(Step(c, Step(c, w, attach), deliver));
    } else if lastSeq > w.s.nextSeq {
      assert Attached(c, w.s, now, lastSeq, token, willing).0.sink == Some(Sink(token, lastSeq, willing, [], false));
    }
  }

  lemma SinkIsGapless<V>(w: World<V>)
    requires Inv(w) && w.s.sink.Some?
    ensures Gapless(w.s.sink.value, w.history)
  {
  }

  /** A detach with the token of the attached sink takes it away, and no other does; and a
      session that has expired has no sink, takes none, and stamps and keeps nothing. */
  lemma DetachAndExpire<V>(c: Config, s: State<V>, token: nat, now: int, lastSeq: nat, willing: nat -> bool, v: V,
                           seqs: seq<nat>)
    ensures var s' := Detached(s, token);
            && s'.(sink := s.sink) == s
            && s'.sink == if !s.expired && s.sink.Some? && s.sink.value.token == token then None else s.sink
    ensures var e := Ended(s);
            && e.sink.None? && e.expired && e.buf == s.buf && e.nextSeq == s.nextSeq
            && !Attached(c, e, now, lastSeq, token, willing).1 && Attached(c, e, now, lastSeq, token, willing).0 == e
            && Delivered(c, e, now, v) == e && WithAborted(e, seqs) == e
  {
  }

  // -------------------------------------------------------------- the session object

  class Session<V> {
    const cfg: Config
    var nextSeq: nat
    var buf: seq<Push<V>>
    var sink: Option<Sink<V>>
    var aborted: seq<nat>
    var expired: bool

    function St(): State<V>
      reads this
    {
      State(nextSeq, buf, sink, aborted, expired)
    }

    constructor (cfg: Config)
      ensures this.cfg == cfg && St() == Start<V>().s
    {
      this.cfg := cfg;
      nextSeq, buf, sink, aborted, expired := 0, [], None, [], false;
    }

    method TrimLocked(now: int)
      modifies this`buf
      ensures buf == Trim(cfg, old(buf), now)
      ensures exists n: nat :: TrimmedTo(cfg, old(buf), now, n, buf)
    {
      ghost var cut := TrimIsExact(cfg, buf, now);
      var cutoff := now - cfg.window;
      var n := 0;
      while n < |buf| && (|buf| - n > cfg.maxMsgs || buf[n].at < cutoff)
        invariant 0 <= n <= |buf| && buf == old(buf)
        invariant Trim(cfg, buf[n..], now) == Trim(cfg, buf, now)
      {
        assert buf[n..][1..] == buf[n + 1..];
        n := n + 1;
      }
      if n > 0 { buf := buf[n..]; }
    }

    method Deliver(now: int, v: V)
      modifies this
      ensures St() == Delivered(cfg, old(St()), now, v)
    {
      if expired { return; }
      nextSeq := nextSeq + 1;
      buf := buf + [Push(nextSeq, now, v)];
      TrimLocked(now);
      if sink.Some? {
        sink := Some(Offer(sink.value, nextSeq, v));
      }
    }

    method Attach(now: int, lastSeq: nat, token: nat, willing: nat -> bool) returns (reported: seq<nat>, ok: bool)
      modifies this
      ensures (St(), ok, reported) == Attached(cfg, old(St()), now, lastSeq, token, willing)
    {
      if expired { return [], false; }
      TrimLocked(now);
      if lastSeq < nextSeq {
        var oldest := nextSeq - |buf| + 1;
        if |buf| == 0 || lastSeq + 1 < oldest { return [], false; }
      }
      var k := Sink(token, lastSeq, willing, [], false);
      if lastSeq < nextSeq {
        ghost var start := k;
        var i := 0;
        while i < |buf| && !k.refused
          invariant 0 <= i <= |buf|
          invariant k.refused ==> Replay(start, buf, lastSeq) == k
          invariant !k.refused ==> Replay(k, buf[i..], lastSeq) == Replay(start, buf, lastSeq)
        {
          assert buf[i..][0] == buf[i] && buf[i..][1..] == buf[i + 1..];
          if buf[i].seqNo > lastSeq {
            k := Offer(k, buf[i].seqNo, buf[i].val);
          }
          i := i + 1;
        }
      }
      sink := Some(k);
      reported, aborted := aborted, [];
      ok := true;
    }

    method Detach(token: nat)
      modifies this`sink
      ensures St() == Detached(old(St()), token)
    {
      if expired || sink.None? || sink.value.token != token { return; }
      sink := None;
    }

    method RecordAborted(seqs: seq<nat>)
      modifies this`aborted
      ensures St() == WithAborted(old(St()), seqs)
    {
      if |seqs| == 0 { assert aborted + seqs == aborted; return; }
      if !expired { aborted := aborted + seqs; }
    }

    method Expire()
      modifies this`expired, this`sink
      ensures St() == Ended(old(St()))
    {
      expired, sink := true, None;
    }
  }
}
