/** The two-stage asynchronous log of netrpc/common/log.cc: loggers push, sync callers move the front buffer to a
    queue of batches, one writer thread takes batches off and writes them. */
module LogPipeline {

  function Flat(batches: seq<seq<string>>): seq<string> {
    if batches == [] then [] else batches[0] + Flat(batches[1..])
  }

  function Text(messages: seq<string>): string {
    if messages == [] then "" else messages[0] + Text(messages[1..])
  }

  lemma {:induction false} FlatConcat(a: seq<seq<string>>, b: seq<seq<string>>)
    ensures Flat(a + b) == Flat(a) + Flat(b)
  {
    if a == [] {
      assert a + b == b;
    } else {
      assert (a + b)[1..] == a[1..] + b;
      FlatConcat(a[1..], b);
    }
  }

  lemma {:induction false} TextConcat(a: seq<string>, b: seq<string>)
    ensures Text(a + b) == Text(a) + Text(b)
  {
    if a == [] {
      assert a + b == b;
    } else {
      assert (a + b)[1..] == a[1..] + b;
      TextConcat(a[1..], b);
    }
  }

  // The state and its steps: one for each critical section, and for each message the writer writes.

  /** The writer's side: the queue of batches, the batch in the thread's hands, and the file. `written` is the history
      of the messages written. */
  datatype Sink = Sink(queue: seq<seq<string>>, batch: seq<string>, writing: bool, stopped: bool, ended: bool,
                       written: seq<string>, file: string)

  datatype SinkOp =
    | Offer(batch: seq<string>)  // pushLogBuffer
    | Pop                        // the writer takes a batch
    | Write                      // the writer writes a message
    | Flush                      // the writer ends its batch, and itself if it has been stopped
    | Stop

  /** The writer takes one batch at a time. */
  predicate SinkLegal(s: Sink, op: SinkOp) {
    match op
    case Offer(_) => true
    case Pop => !s.writing && !s.ended && s.queue != []
    case Write => s.writing && s.batch != []
    case Flush => s.writing && s.batch == []
    case Stop => true
  }

  function SinkStep(s: Sink, op: SinkOp): Sink
    requires SinkLegal(s, op)
  {
    match op
    case Offer(batch) => s.(queue := s.queue + [batch])
    case Pop => s.(batch := s.queue[0], queue := s.queue[1..], writing := true)
    case Write => s.(written := s.written + [s.batch[0]], file := s.file + s.batch[0], batch := s.batch[1..])
    case Flush => s.(writing := false, ended := s.stopped)
    case Stop => s.(stopped := true)
  }

  /** The writer left alone with its batch: every message written, then the end of the batch. */
  function Drained(s: Sink): (s': Sink)
    requires s.writing
    ensures s'.batch == [] && s'.written == s.written + s.batch && s'.file == s.file + Text(s.batch)
    ensures s'.queue == s.queue && !s'.writing && s'.ended == s'.stopped == s.stopped
    decreases |s.batch|
  {
    if s.batch == [] then SinkStep(s, Flush)
    else
      assert s.batch == [s.batch[0]] + s.batch[1..];
      Drained(SinkStep(s, Write))
  }

  /** The pipeline with any number of sync callers: what each of them holds between its two critical sections.
      `pushed` is the history of the messages pushed. */
  datatype Pipe = Pipe(front: seq<string>, syncs: seq<seq<string>>, pushed: seq<string>, sink: Sink)

  datatype Op =
    | Push(message: string)  // pushLog
    | Swap(caller: nat)      // first half of syncLoop
    | Enqueue(caller: nat)   // second half of syncLoop
    | Writer(op: SinkOp)     // a step on the writer's side, other than an offer

  const IDLE := Sink([], [], false, false, false, [], "")

  function Start(callers: nat): Pipe {
    Pipe([], seq(callers, _ => []), [], IDLE)
  }

  /** A caller that holds messages enqueues them before it swaps again; only callers offer batches. */
  predicate Legal(p: Pipe, op: Op) {
    match op
    case Push(_) => true
    case Swap(k) => k < |p.syncs| && p.syncs[k] == []
    case Enqueue(k) => k < |p.syncs|
    case Writer(o) => !o.Offer? && SinkLegal(p.sink, o)
  }

  function Step(p: Pipe, op: Op): Pipe
    requires Legal(p, op)
  {
    match op
    case Push(m) => p.(front := p.front + [m], pushed := p.pushed + [m])
    case Swap(k) => p.(front := [], syncs := p.syncs[k := p.front])
    case Enqueue(k) =>
      if p.syncs[k] == [] then p
      else p.(sink := SinkStep(p.sink, Offer(p.syncs[k])), syncs := p.syncs[k := []])
    case Writer(o) => p.(sink := SinkStep(p.sink, o))
  }

  // The two classes.

  class AsyncLogger {
    var buffer: seq<seq<string>>
    var stopFlag: bool
    var file: string
    var tmp: seq<string>  // the batch in the hands of the thread
    var writing: bool
    var ended: bool
    ghost var written: seq<string>

    ghost function View(): Sink
      reads this
    {
      Sink(buffer, tmp, writing, stopFlag, ended, written, file)
    }

    constructor ()
      ensures View() == IDLE
    {
      buffer, stopFlag, file := [], false, "";
      tmp, writing, ended, written := [], false, false, [];
    }

    method PushLogBuffer(vec: seq<string>)
      modifies this
      ensures View() == SinkStep(old(View()), Offer(vec))
    {
      buffer := buffer + [vec];
    }

    method Stop()
      modifies this
      ensures View() == SinkStep(old(View()), SinkOp.Stop)
    {
      stopFlag := true;
    }

    /** The locked part of `Loop`, once the wait for a batch is over. */
    method TakeBatch()
      requires SinkLegal(View(), Pop)
      modifies this
      ensures View() == SinkStep(old(View()), Pop)
    {
      tmp := buffer[0];
      buffer := buffer[1..];
      writing := true;
    }

    /** The writing part of `Loop`: every message goes to the file, in order; then the thread may end. */
    method WriteBatch()
      requires writing
      modifies this
      ensures View() == Drained(old(View()))
      ensures file == old(file + Text(tmp)) && written == old(written + tmp) && ended == stopFlag
    {
      while tmp != []
        invariant writing && Drained(View()) == Drained(old(View()))
        decreases |tmp|
      {
        if tmp[0] != "" {
          file := file + tmp[0];
        }
        written := written + [tmp[0]];
        tmp := tmp[1..];
      }
      writing := false;
      if stopFlag {
        ended := true;
      } else {
        ended := false;
      }
    }
  }

  class Logger {
    const kind: int  // 0 for a client, which prints instead
    const asyncLogger: AsyncLogger
    var buffer: seq<string>
    var held: seq<seq<string>>  // what each sync caller has swapped out and not enqueued yet
    ghost var pushed: seq<string>

    ghost function View(): Pipe
      reads this, asyncLogger
    {
      Pipe(buffer, held, pushed, asyncLogger.View())
    }

    constructor (kind: int, asyncLogger: AsyncLogger, callers: nat)
      ensures this.kind == kind && this.asyncLogger == asyncLogger
      ensures View() == Start(callers).(sink := asyncLogger.View())
    {
      this.kind, this.asyncLogger := kind, asyncLogger;
      buffer, held, pushed := [], seq(callers, _ => []), [];
    }

    method PushLog(msg: string)
      modifies this
      ensures View() == if kind == 0 then old(View()) else Step(old(View()), Push(msg))
    {
      if kind == 0 {
        return;
      }
      buffer := buffer + [msg];
      pushed := pushed + [msg];
    }

    /** The locked part of `syncLoop`. */
    method SwapOut(caller: nat)
      requires Legal(View(), Swap(caller))
      modifies this
      ensures View() == Step(old(View()), Swap(caller))
    {
      var tmp := [];
      tmp, buffer := buffer, tmp;
      held := held[caller := tmp];
    }

    /** The rest of `syncLoop`. */
    method EnqueueHeld(caller: nat)
      requires Legal(View(), Enqueue(caller))
      modifies this, asyncLogger
      ensures View() == Step(old(View()), Enqueue(caller))
    {
      if held[caller] != [] {
        asyncLogger.PushLogBuffer(held[caller]);
        held := held[caller := []];
      }
    }

    /** `syncLoop` run by itself: the front buffer becomes the last batch, unless it is empty. */
    method SyncLoop(caller: nat)
      requires Legal(View(), Swap(caller))
      modifies this, asyncLogger
      ensures View() == Step(Step(old(View()), Swap(caller)), Enqueue(caller))
      ensures buffer == [] && held == old(held)
      ensures asyncLogger.buffer == old(asyncLogger.buffer) + (if old(buffer) == [] then [] else [old(buffer)])
    {
      SwapOut(caller);
      EnqueueHeld(caller);
      assert held == old(held);
    }
  }

  // Every interleaving.

  predicate LegalRun(p: Pipe, ops: seq<Op>)
    decreases |ops|
  {
    ops == [] || (Legal(p, ops[0]) && LegalRun(Step(p, ops[0]), ops[1..]))
  }

  function Run(p: Pipe, ops: seq<Op>): Pipe
    requires LegalRun(p, ops)
    decreases |ops|
  {
    if ops == [] then p else Run(Step(p, ops[0]), ops[1..])
  }

  // Nothing is lost or doubled, with any number of sync callers.

  predicate Accounted(p: Pipe) {
    && multiset(p.pushed)
       == multiset(p.sink.written) + multiset(p.sink.batch) + multiset(Flat(p.sink.queue)) + multiset(Flat(p.syncs))
          + multiset(p.front)
    && p.sink.file == Text(p.sink.written) && (!p.sink.writing ==> p.sink.batch == [])
  }

  lemma Shift(m: multiset<string>, a: multiset<string>, b: multiset<string>, c: multiset<string>, d: multiset<string>)
    requires a + b == c + d
    ensures (m + a) + b == (m + c) + d
  {
    assert (m + a) + b == m + (a + b);
    assert (m + c) + d == m + (c + d);
  }

  lemma {:induction false} FlatUpdate(batches: seq<seq<string>>, k: nat, b: seq<string>)
    requires k < |batches|
    ensures multiset(Flat(batches[k := b])) + multiset(batches[k]) == multiset(Flat(batches)) + multiset(b)
  {
    var updated := batches[k := b];
    assert multiset(Flat(batches)) == multiset(batches[0]) + multiset(Flat(batches[1..]));
    assert multiset(Flat(updated)) == multiset(updated[0]) + multiset(Flat(updated[1..]));
    if k == 0 {
      assert updated[1..] == batches[1..];
    } else {
      assert updated[1..] == batches[1..][k - 1 := b];
      FlatUpdate(batches[1..], k - 1, b);
      Shift(multiset(batches[0]), multiset(Flat(updated[1..])), multiset(batches[k]), multiset(Flat(batches[1..])),
            multiset(b));
    }
  }

  lemma StepAccounts(p: Pipe, op: Op)
    requires Accounted(p) && Legal(p, op)
    ensures Accounted(Step(p, op))
  {
    hide Flat, Text;
    match op
    case Push(m) => PushAccounts(p, m);
    case Swap(k) => SwapAccounts(p, k);
    case Enqueue(k) =>
      EnqueueAccounts(p, k);
      if p.syncs[k] != [] {
        var q := Step(p, op);
        Shift(multiset(p.sink.written) + multiset(p.sink.batch), multiset(Flat(q.sink.queue)), multiset(Flat(q.syncs)),
              multiset(Flat(p.sink.queue)), multiset(Flat(p.syncs)));
      }
    case Writer(Pop) => FirstBatch(p.sink.queue);
    case Writer(Write) => WriteAccounts(p);
    case Writer(_) =>
  }

  lemma PushAccounts(p: Pipe, m: string)
    requires Accounted(p)
    ensures Accounted(Step(p, Push(m)))
  {
    hide Flat, Text;
  }

  lemma WriteAccounts(p: Pipe)
    requires Accounted(p) && Legal(p, Writer(Write))
    ensures Accounted(Step(p, Writer(Write)))
  {
    hide Flat, Text;
    assert p.sink.batch == [p.sink.batch[0]] + p.sink.batch[1..];
    WriteText(p.sink.written, p.sink.batch[0]);
  }

  lemma FirstBatch(queue: seq<seq<string>>)
    requires queue != []
    ensures Flat(queue) == queue[0] + Flat(queue[1..])
  {
  }

  lemma SwapAccounts(p: Pipe, k: nat)
    requires k < |p.syncs| && p.syncs[k] == []
    ensures multiset(Flat(p.syncs[k := p.front])) == multiset(Flat(p.syncs)) + multiset(p.front)
  {
    hide Flat;
    FlatUpdate(p.syncs, k, p.front);
    assert multiset(p.syncs[k]) == multiset{};
  }

  lemma EnqueueAccounts(p: Pipe, k: nat)
    requires k < |p.syncs|
    ensures multiset(Flat(p.sink.queue + [p.syncs[k]])) + multiset(Flat(p.syncs[k := []]))
            == multiset(Flat(p.sink.queue)) + multiset(Flat(p.syncs))
  {
    hide Flat;
    FlatUpdate(p.syncs, k, []);
    EnqueueFlat(p.sink.queue, p.syncs[k]);
    var b: seq<string> := [];
    assert multiset(b) == multiset{};
    Shift(multiset(Flat(p.sink.queue)), multiset(p.syncs[k]), multiset(Flat(p.syncs[k := []])), multiset(Flat(p.syncs)),
          multiset{});
  }

  lemma EnqueueFlat(queue: seq<seq<string>>, b: seq<string>)
    ensures Flat(queue + [b]) == Flat(queue) + b
  {
    FlatConcat(queue, [b]);
    assert Flat([b]) == b + [];
  }

  lemma WriteText(written: seq<string>, m: string)
    ensures Text(written + [m]) == Text(written) + m
  {
    TextConcat(written, [m]);
    assert Text([m]) == m + "";
  }

  lemma {:induction false} RunAccounts(p: Pipe, ops: seq<Op>)
    requires Accounted(p) && LegalRun(p, ops)
    ensures Accounted(Run(p, ops))
    decreases |ops|
  {
    hide Accounted, Step, Legal;
    if ops != [] {
      StepAccounts(p, ops[0]);
      RunAccounts(Step(p, ops[0]), ops[1..]);
    }
  }

  lemma {:induction false} NothingHeld(n: nat)
    ensures Flat(seq(n, _ => [])) == []
  {
    if n > 0 {
      NothingHeld(n - 1);
      var s: seq<seq<string>> := seq(n, _ => []);
      var t: seq<seq<string>> := seq(n - 1, _ => []);
      assert s[1..] == t;
    }
  }

  /** Conservation: whatever the callers and the writer do, what was pushed is what is written and what is still on
      its way, each message as often as it was pushed; and the file holds the written messages. */
  lemma NothingLostOrDoubled(callers: nat, ops: seq<Op>)
    requires LegalRun(Start(callers), ops)
    ensures Accounted(Run(Start(callers), ops))
  {
    NothingHeld(callers);
    RunAccounts(Start(callers), ops);
  }

  // Order, with one sync caller.

  /** Everything still on its way to the file, in the order in which it will get there. */
  function OnTheWay(p: Pipe): seq<string> {
    p.sink.batch + (Flat(p.sink.queue) + (Flat(p.syncs) + p.front))
  }

  predicate InOrder(p: Pipe) {
    |p.syncs| <= 1 && p.pushed == p.sink.written + OnTheWay(p) && (!p.sink.writing ==> p.sink.batch == [])
  }

  lemma StepKeepsOrder(p: Pipe, op: Op)
    requires InOrder(p) && Legal(p, op)
    ensures InOrder(Step(p, op))
  {
    hide OnTheWay;
    match op
    case Push(m) => PushMoves(p, m);
    case Swap(k) => SwapMoves(p);
    case Enqueue(k) => EnqueueMoves(p);
    case Writer(Pop) => PopMoves(p);
    case Writer(Write) => WriteMoves(p);
    case Writer(Flush) => BookkeepingMoves(p, Step(p, op));
    case Writer(Stop) => BookkeepingMoves(p, Step(p, op));
    case Writer(Offer(_)) =>
  }

  lemma PushMoves(p: Pipe, m: string)
    ensures OnTheWay(Step(p, Push(m))) == OnTheWay(p) + [m]
    ensures p.sink.written + (OnTheWay(p) + [m]) == p.sink.written + OnTheWay(p) + [m]
  {
    hide Flat;
    assert Flat(p.syncs) + (p.front + [m]) == Flat(p.syncs) + p.front + [m];
    assert Flat(p.sink.queue) + (Flat(p.syncs) + p.front + [m]) == Flat(p.sink.queue) + (Flat(p.syncs) + p.front) + [m];
  }

  lemma SwapMoves(p: Pipe)
    requires |p.syncs| == 1 && p.syncs[0] == []
    ensures OnTheWay(Step(p, Swap(0))) == OnTheWay(p)
  {
    hide Flat;
    assert p.syncs == [p.syncs[0]] && p.syncs[0 := p.front] == [p.front];
    OneCaller(p.syncs[0]);
    OneCaller(p.front);
    assert [] + p.front == p.front == p.front + [];
  }

  lemma EnqueueMoves(p: Pipe)
    requires |p.syncs| == 1
    ensures OnTheWay(Step(p, Enqueue(0))) == OnTheWay(p)
  {
    hide Flat;
    assert p.syncs == [p.syncs[0]] && p.syncs[0 := []] == [[]];
    OneCaller(p.syncs[0]);
    OneCaller([]);
    EnqueueFlat(p.sink.queue, p.syncs[0]);
    Reassociate(Flat(p.sink.queue), p.syncs[0], p.front);
    assert [] + p.front == p.front;
  }

  lemma PopMoves(p: Pipe)
    requires Legal(p, Writer(Pop)) && p.sink.batch == []
    ensures OnTheWay(Step(p, Writer(Pop))) == OnTheWay(p)
  {
    hide Flat;
    FirstBatch(p.sink.queue);
    Reassociate(p.sink.queue[0], Flat(p.sink.queue[1..]), Flat(p.syncs) + p.front);
    assert forall s: seq<string> :: [] + s == s;
  }

  lemma WriteMoves(p: Pipe)
    requires Legal(p, Writer(Write))
    ensures p.sink.written + OnTheWay(p) == Step(p, Writer(Write)).sink.written + OnTheWay(Step(p, Writer(Write)))
  {
    hide Flat;
    assert p.sink.batch == [p.sink.batch[0]] + p.sink.batch[1..];
    Reassociate([p.sink.batch[0]], p.sink.batch[1..], Flat(p.sink.queue) + (Flat(p.syncs) + p.front));
    Reassociate(p.sink.written, [p.sink.batch[0]], OnTheWay(Step(p, Writer(Write))));
  }

  lemma BookkeepingMoves(p: Pipe, q: Pipe)
    requires q.front == p.front && q.syncs == p.syncs && q.sink.queue == p.sink.queue && q.sink.batch == p.sink.batch
    ensures OnTheWay(q) == OnTheWay(p)
  {
  }

  lemma OneCaller(b: seq<string>)
    ensures Flat([b]) == b
  {
    assert [b][1..] == [] && b + [] == b;
  }

  lemma Reassociate(a: seq<string>, b: seq<string>, c: seq<string>)
    ensures (a + b) + c == a + (b + c)
  {
  }

  lemma {:induction false} RunKeepsOrder(p: Pipe, ops: seq<Op>)
    requires InOrder(p) && LegalRun(p, ops)
    ensures InOrder(Run(p, ops))
    decreases |ops|
  {
    hide InOrder, Step, Legal;
    if ops != [] {
      StepKeepsOrder(p, ops[0]);
      RunKeepsOrder(Step(p, ops[0]), ops[1..]);
    }
  }

  lemma StartInOrder(callers: nat)
    requires callers <= 1
    ensures InOrder(Start(callers))
  {
    NothingHeld(callers);
  }

  /** With one sync caller the log is at all times an in-order prefix of what was pushed, and what is missing is
      exactly what is on its way. */
  lemma WrittenIsPrefix(callers: nat, ops: seq<Op>)
    requires callers <= 1 && LegalRun(Start(callers), ops)
    ensures var p := Run(Start(callers), ops); p.pushed == p.sink.written + OnTheWay(p) && p.sink.written <= p.pushed
  {
    StartInOrder(callers);
    RunKeepsOrder(Start(callers), ops);
  }

  /** Two sync callers can overtake each other between their two critical sections. */
  lemma CallersOvertake(callers: nat)
    requires callers >= 2
    ensures exists ops :: LegalRun(Start(callers), ops)
                          && !(Run(Start(callers), ops).sink.written <= Run(Start(callers), ops).pushed)
  {
    hide Legal, Step, Run, LegalRun;
    var idle: seq<seq<string>> := seq(callers, _ => []);
    var p4 := Pipe([], idle[0 := ["a"]][1 := ["b"]], ["a", "b"], IDLE);
    var rest := [Enqueue(1), Writer(Pop), Writer(Write)];
    SecondIsWritten(p4);
    BothSwapped(callers, p4, rest);
    var last := Run(p4, rest);
    assert last.sink.written[0] != last.pushed[0];
  }

  lemma BothSwapped(callers: nat, p4: Pipe, rest: seq<Op>)
    requires callers >= 2 && LegalRun(p4, rest)
    requires p4 == Pipe([], seq(callers, _ => [])[0 := ["a"]][1 := ["b"]], ["a", "b"], IDLE)
    ensures var ops := [Push("a")] + ([Swap(0)] + ([Push("b")] + ([Swap(1)] + rest)));
            LegalRun(Start(callers), ops) && Run(Start(callers), ops) == Run(p4, rest)
  {
    hide Run, LegalRun;
    var idle: seq<seq<string>> := seq(callers, _ => []);
    var p1 := Pipe(["a"], idle, ["a"], IDLE);
    var p2 := Pipe([], idle[0 := ["a"]], ["a"], IDLE);
    var p3 := p2.(front := ["b"], pushed := ["a", "b"]);
    assert Step(Start(callers), Push("a")) == p1 && Step(p1, Swap(0)) == p2;
    assert Step(p2, Push("b")) == p3 && Step(p3, Swap(1)) == p4;
    RunCons(p3, Swap(1), rest);
    RunCons(p2, Push("b"), [Swap(1)] + rest);
    RunCons(p1, Swap(0), [Push("b")] + ([Swap(1)] + rest));
    RunCons(Start(callers), Push("a"), [Swap(0)] + ([Push("b")] + ([Swap(1)] + rest)));
  }

  lemma SecondIsWritten(p: Pipe)
    requires p.sink == IDLE && |p.syncs| >= 2 && p.syncs[1] == ["b"]
    ensures var ops := [Enqueue(1), Writer(Pop), Writer(Write)];
            LegalRun(p, ops) && Run(p, ops).sink.written == ["b"] && Run(p, ops).pushed == p.pushed
  {
    hide Run, LegalRun;
    var p5 := p.(sink := IDLE.(queue := [["b"]]), syncs := p.syncs[1 := []]);
    var p6 := p5.(sink := IDLE.(batch := ["b"], writing := true));
    var p7 := p6.(sink := IDLE.(written := ["b"], file := "b", writing := true));
    assert Step(p, Enqueue(1)) == p5 && Step(p5, Writer(Pop)) == p6 && Step(p6, Writer(Write)) == p7;
    RunsNothing(p7);
    RunCons(p6, Writer(Write), []);
    RunCons(p5, Writer(Pop), [Writer(Write)] + []);
    RunCons(p, Enqueue(1), [Writer(Pop)] + ([Writer(Write)] + []));
    assert [Enqueue(1)] + ([Writer(Pop)] + ([Writer(Write)] + [])) == [Enqueue(1), Writer(Pop), Writer(Write)];
  }

  lemma RunsNothing(p: Pipe)
    ensures LegalRun(p, []) && Run(p, []) == p
  {
  }

  lemma RunCons(p: Pipe, op: Op, ops: seq<Op>)
    requires Legal(p, op) && LegalRun(Step(p, op), ops)
    ensures LegalRun(p, [op] + ops) && Run(p, [op] + ops) == Run(Step(p, op), ops)
  {
    assert ([op] + ops)[1..] == ops;
  }

  /** The log is in order in every run exactly when there is at most one sync caller. */
  lemma InOrderIff(callers: nat)
    ensures (forall ops :: LegalRun(Start(callers), ops)
                           ==> Run(Start(callers), ops).sink.written <= Run(Start(callers), ops).pushed)
            <==> callers <= 1
  {
    if callers <= 1 {
      forall ops | LegalRun(Start(callers), ops)
        ensures Run(Start(callers), ops).sink.written <= Run(Start(callers), ops).pushed
      {
        WrittenIsPrefix(callers, ops);
      }
    } else {
      CallersOvertake(callers);
    }
  }

  // Stopping.

  predicate Over(p: Pipe) {
    p.sink.ended && !p.sink.writing
  }

  /** In `ops` the writer ends a batch at some time after a stop. */
  predicate EndsAfterStop(ops: seq<Op>) {
    exists i, j :: 0 <= i < j < |ops| && ops[i] == Writer(Stop) && ops[j] == Writer(Flush)
  }

  /** The writer ends if and only if it is stopped and then gets to the end of a batch. */
  lemma EndedIff(callers: nat, ops: seq<Op>)
    requires LegalRun(Start(callers), ops)
    ensures Run(Start(callers), ops).sink.ended <==> EndsAfterStop(ops)
  {
    EndedFrom(Start(callers), ops);
  }

  lemma {:induction false} EndedFrom(p: Pipe, ops: seq<Op>)
    requires LegalRun(p, ops) && (p.sink.ended ==> p.sink.stopped && !p.sink.writing)
    ensures Run(p, ops).sink.ended
            <==> p.sink.ended || EndsAfterStop(ops) || (p.sink.stopped && Writer(Flush) in ops)
    decreases |ops|
  {
    hide Step, Legal, EndsAfterStop;
    if ops == [] {
      NoStop();
    } else {
      StepEnds(p, ops[0]);
      EndedFrom(Step(p, ops[0]), ops[1..]);
      assert ops == [ops[0]] + ops[1..];
      StopFirst(ops);
    }
  }

  lemma NoStop()
    ensures !EndsAfterStop([])
  {
  }

  lemma StepEnds(p: Pipe, op: Op)
    requires Legal(p, op) && (p.sink.ended ==> p.sink.stopped && !p.sink.writing)
    ensures var q := Step(p, op).sink;
            && (q.ended <==> p.sink.ended || (p.sink.stopped && op == Writer(Flush)))
            && (q.stopped <==> p.sink.stopped || op == Writer(Stop))
            && (q.ended ==> q.stopped && !q.writing)
  {
  }

  lemma StopFirst(ops: seq<Op>)
    requires ops != []
    ensures EndsAfterStop(ops) <==> EndsAfterStop(ops[1..]) || (ops[0] == Writer(Stop) && Writer(Flush) in ops[1..])
  {
    if EndsAfterStop(ops[1..]) {
      var i, j :| 0 <= i < j < |ops[1..]| && ops[1..][i] == Writer(Stop) && ops[1..][j] == Writer(Flush);
      assert ops[i + 1] == Writer(Stop) && ops[j + 1] == Writer(Flush);
    }
    if ops[0] == Writer(Stop) && Writer(Flush) in ops[1..] {
      var j :| 0 <= j < |ops[1..]| && ops[1..][j] == Writer(Flush);
      assert ops[j + 1] == Writer(Flush);
    }
    if EndsAfterStop(ops) {
      var i, j :| 0 <= i < j < |ops| && ops[i] == Writer(Stop) && ops[j] == Writer(Flush);
      assert ops[1..][j - 1] == Writer(Flush);
      assert i > 0 ==> ops[1..][i - 1] == Writer(Stop);
    }
  }

  lemma {:induction false} EndedForGood(p: Pipe, ops: seq<Op>)
    requires Over(p) && LegalRun(p, ops)
    ensures Over(Run(p, ops)) && Run(p, ops).sink.written == p.sink.written && Run(p, ops).sink.file == p.sink.file
    decreases |ops|
  {
    if ops != [] {
      EndedForGood(Step(p, ops[0]), ops[1..]);
    }
  }

  /** Once the writer has ended, the log is complete for good exactly when nothing was on its way and nothing is
      pushed any more: batches still queued are dropped. */
  lemma EndedLogCompleteIff(ops: seq<Op>, more: seq<Op>)
    requires LegalRun(Start(1), ops) && Over(Run(Start(1), ops)) && LegalRun(Run(Start(1), ops), more)
    ensures var p := Run(Start(1), ops); var q := Run(p, more);
            q.sink.written == q.pushed <==> OnTheWay(p) == [] && q.pushed == p.pushed
  {
    hide OnTheWay, Step, Legal, Over;
    var p := Run(Start(1), ops);
    WrittenIsPrefix(1, ops);
    EndedForGood(p, more);
    PushedGrows(p, more);
    var q := Run(p, more);
    assert |p.pushed| == |p.sink.written| + |OnTheWay(p)|;
  }

  lemma {:induction false} PushedGrows(p: Pipe, ops: seq<Op>)
    requires LegalRun(p, ops)
    ensures p.pushed <= Run(p, ops).pushed
    decreases |ops|
  {
    if ops != [] {
      PushedGrows(Step(p, ops[0]), ops[1..]);
    }
  }
}
