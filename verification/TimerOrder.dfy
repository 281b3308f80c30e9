/** What the timer is armed for, and in which order its events run: netrpc/net/timer.cc over whole runs. */
module TimerOrder {
  import opened Timers
  import opened TimerRuns

  // Deadlines.

  /** The deadline for a first arrival at `key`, set with the clock at `now`. */
  function DeadlineFor(key: int, now: int): int {
    if key > now then key else now + 100
  }

  lemma RearmsExactly(s: State, now: int)
    requires Filed(s)
    ensures Rearm(s, now).fd == if s.pending == [] then s.fd else Armed(DeadlineFor(s.pending[0].key, now))
  {
    if s.pending != [] {
      assert s.pending[0] in s.pending;
    }
  }

  /** `Insert` puts an entry behind all with the same key. */
  lemma {:induction false} InsertAt(p: seq<Entry>, x: Entry)
    requires Sorted(p)
    ensures var n := UpperBound(p, x.key); Insert(p, x) == p[..n] + [x] + p[n..]
  {
    if p != [] && x.key >= p[0].key {
      InsertAt(p[1..], x);
      InsertShifted(p, x, UpperBound(p[1..], x.key));
    } else {
      assert p[..0] + [x] + p[0..] == [x] + p;
    }
  }

  lemma InsertShifted(p: seq<Entry>, x: Entry, n: nat)
    requires p != [] && n < |p|
    ensures p[..n + 1] + [x] + p[n + 1..] == [p[0]] + (p[1..][..n] + [x] + p[1..][n..])
  {
  }

  /** Adding an event sets the descriptor if and only if the event is the only one or earlier than all. */
  lemma AddArms(s: State, e: EventId, v: Event, now: int)
    requires Filed(s) && !Queued(s, e)
    ensures AddEvent(s, e, v, now).fd
            == if s.pending == [] || v.arrive < s.pending[0].key then Armed(DeadlineFor(v.arrive, now)) else s.fd
  {
    hide Insert, UpperBound, DeadlineFor;
    var x := Entry(v.arrive, e);
    AddFiles(s, e, v, now);
    InsertAt(s.pending, x);
    assert s.pending != [] ==> s.pending[0] in s.pending;
    if s.pending == [] || v.arrive < s.pending[0].key {
      assert UpperBound(s.pending, x.key) == 0;
      var added := State(Insert(s.pending, x), s.events[e := v], s.fd);
      assert added.pending[0] == x && AddEvent(s, e, v, now) == Rearm(added, now);
      FiledAdded(s, added, AddEvent(s, e, v, now));
      RearmsExactly(added, now);
    }
  }

  lemma FiledAdded(s: State, added: State, s': State)
    requires Filed(s') && added.pending == s'.pending && added.events == s'.events
    ensures Filed(added)
  {
  }

  /** `onTimer` leaves the descriptor set for what waits; with nothing waiting, it has only been read. */
  lemma TimerArms(s: State, at: int, now: int, ticks: seq<int>)
    requires Filed(s) && |ticks| > 2 * |Collected(s, now)| && forall t :: t in ticks ==> t >= now
    ensures var s' := FireDue(s, at, now, ticks);
            s'.fd == if s'.pending != [] then Armed(DeadlineFor(s'.pending[0].key, ticks[|ticks| - 1]))
                     else if s.fd.Armed? && s.fd.deadline <= at then Idle
                     else s.fd
  {
    hide Requeue, Rearm, Collect, DueCount, Sorted, Distinct, DeadlineFor;
    var c, m := Collected(s, now), Taken(s, at, now);
    CollectExactly(s, now);
    TakenFiles(s, at, now);
    RequeueRefiles(m, c, ticks, now);
    var q := Requeue(m, c, ticks);
    RearmsExactly(q, ticks[|ticks| - 1]);
    RearmWakes(q, ticks[|ticks| - 1]);
    if q.pending == [] {
      forall e | e in c ensures !m.events[e].repeated {
        assert m.events[e].repeated ==> Entry(q.events[e].arrive, e) in q.pending;
      }
      RequeueNone(m, c, ticks);
    }
  }

  lemma {:induction false} RequeueNone(s: State, es: seq<EventId>, ticks: seq<int>)
    requires Known(s) && |ticks| >= 2 * |es| && forall e :: e in es ==> e in s.events && !s.events[e].repeated
    ensures Requeue(s, es, ticks) == s
    decreases |es|
  {
    hide AddEvent;
    if es != [] {
      assert es[0] in es;
      RequeueNone(s, es[1..], ticks[2..]);
    }
  }

  /** `deadline` is what the first arrival of the queue calls for at the clock of `w`. */
  predicate CallsFor(w: World, deadline: int) {
    w.s.pending != [] && deadline == DeadlineFor(w.s.pending[0].key, w.clock)
  }

  /** A step that changes the descriptor sets it for the first arrival there is then, or has it read. */
  lemma StepArms(w: World, op: Op)
    requires Sound(w) && Legal(w, op)
    ensures var w' := Step(w, op);
            w'.s.fd == w.s.fd || w'.s.fd == Idle || (w'.s.fd.Armed? && CallsFor(w', w'.s.fd.deadline))
  {
    hide AddEvent, FireDue, Wakes, Collected, DeadlineFor;
    match op
    case AddOp(e, v, now) =>
      AddArms(w.s, e, v, now);
      if w.s.pending == [] || v.arrive < w.s.pending[0].key {
        FirstAfterAdd(w.s, e, v, now);
      }
    case DeleteOp(_, _) =>
    case TimerOp(at, now, ticks) => TimerArms(w.s, at, now, ticks);
    case TaskOp =>
  }

  lemma FirstAfterAdd(s: State, e: EventId, v: Event, now: int)
    requires Filed(s) && !Queued(s, e) && (s.pending == [] || v.arrive < s.pending[0].key)
    ensures var s' := AddEvent(s, e, v, now); s'.pending != [] && s'.pending[0] == Entry(v.arrive, e)
  {
  }

  /** Whenever the timer is armed, it is armed for the exact deadline that some state of the run so far called for: the
      first arrival of its queue if that was still to come, otherwise 100 ms after its clock. */
  lemma DeadlineWasCalledFor(clock: int, ops: seq<Op>)
    requires LegalRun(Start(clock), ops)
    ensures var fd := Run(Start(clock), ops).s.fd;
            fd.Armed? ==> exists k :: 0 <= k <= |ops| && LegalRun(Start(clock), ops[..k])
                                      && CallsFor(Run(Start(clock), ops[..k]), fd.deadline)
  {
    hide Run, LegalRun, CallsFor;
    ArmedOnTheWay(Start(clock), ops);
  }

  lemma {:induction false} ArmedOnTheWay(w: World, ops: seq<Op>)
    requires Sound(w) && LegalRun(w, ops)
    ensures var fd := Run(w, ops).s.fd;
            fd == w.s.fd || fd == Idle
            || (fd.Armed? && exists k :: 0 <= k <= |ops| && LegalRun(w, ops[..k])
                                         && CallsFor(Run(w, ops[..k]), fd.deadline))
    decreases |ops|
  {
    hide Sound, Legal, Step, CallsFor;
    SoundIsKnown(w);
    if ops != [] {
      var w' := Step(w, ops[0]);
      var fd := Run(w, ops).s.fd;
      StepKeepsSound(w, ops[0]);
      StepArms(w, ops[0]);
      ArmedOnTheWay(w', ops[1..]);
      if fd.Armed? && fd == w'.s.fd && fd != w.s.fd {
        FirstStep(w, ops, 1);
      } else if fd.Armed? && fd != w'.s.fd {
        var k :| 0 <= k <= |ops[1..]| && LegalRun(w', ops[1..][..k]) && CallsFor(Run(w', ops[1..][..k]), fd.deadline);
        FirstStep(w, ops, k + 1);
      }
    }
  }

  lemma FirstStep(w: World, ops: seq<Op>, k: nat)
    requires Known(w.s) && 0 < k <= |ops| && Legal(w, ops[0])
    ensures var w' := Step(w, ops[0]);
            && (LegalRun(w, ops[..k]) <==> LegalRun(w', ops[1..][..k - 1]))
            && (LegalRun(w, ops[..k]) ==> Run(w, ops[..k]) == Run(w', ops[1..][..k - 1]))
            && LegalRun(w', []) && Run(w', []) == w'
  {
    hide Legal, Step;
    assert ops[..k][1..] == ops[1..][..k - 1];
  }

  // Order.

  /** The last place at which an entry was filed, or -1. */
  function LastFiled(filings: seq<Entry>, x: Entry): (i: int)
    ensures -1 <= i < |filings| && (i >= 0 ==> filings[i] == x)
    ensures forall k :: i < k < |filings| ==> filings[k] != x
  {
    if filings == [] then -1
    else if filings[|filings| - 1] == x then |filings| - 1
    else LastFiled(filings[..|filings| - 1], x)
  }

  /** What filing the repeating ones among the collected events again comes to. */
  function Refilings(events: map<EventId, Event>, es: seq<EventId>, ticks: seq<int>): seq<Entry>
    requires |ticks| >= 2 * |es| && forall e :: e in es ==> e in events
    decreases |es|
  {
    if es == [] then []
    else
      (if events[es[0]].repeated then [Entry(ticks[0] + events[es[0]].interval, es[0])] else [])
      + Refilings(events, es[1..], ticks[2..])
  }

  /** Everything a run files, in order. */
  function Filings(w: World, ops: seq<Op>): seq<Entry>
    requires Known(w.s) && LegalRun(w, ops)
    decreases |ops|
  {
    if ops == [] then []
    else
      (match ops[0]
       case AddOp(e, v, _) => [Entry(v.arrive, e)]
       case TimerOp(_, now, ticks) => Refilings(w.s.events, Collected(w.s, now), ticks)
       case _ => [])
      + Filings(Step(w, ops[0]), ops[1..])
  }

  /** Entries under one arrival stand in the order in which they were last filed. */
  predicate AsFiled(p: seq<Entry>, filings: seq<Entry>) {
    forall i, j :: 0 <= i < j < |p| && p[i].key == p[j].key ==> LastFiled(filings, p[i]) < LastFiled(filings, p[j])
  }

  lemma LastFiledMore(filings: seq<Entry>, x: Entry, y: Entry)
    ensures LastFiled(filings + [x], y) == if y == x then |filings| else LastFiled(filings, y)
  {
    assert (filings + [x])[..|filings|] == filings;
  }

  lemma FiledBehind(p: seq<Entry>, filings: seq<Entry>, x: Entry)
    requires Sorted(p) && AsFiled(p, filings) && forall y :: y in p ==> y.event != x.event
    ensures AsFiled(Insert(p, x), filings + [x])
  {
    hide Insert, LastFiled;
    var n, q := UpperBound(p, x.key), Insert(p, x);
    InsertAt(p, x);
    forall i, j | 0 <= i < j < |q| && q[i].key == q[j].key
      ensures LastFiled(filings + [x], q[i]) < LastFiled(filings + [x], q[j])
    {
      LastFiledMore(filings, x, q[i]);
      LastFiledMore(filings, x, q[j]);
      assert i != n ==> q[i] == p[if i < n then i else i - 1];
      assert j != n ==> q[j] == p[if j < n then j else j - 1];
    }
  }

  lemma {:induction false} ErasedAsFiled(p: seq<Entry>, filings: seq<Entry>, key: int, e: EventId)
    requires AsFiled(p, filings)
    ensures AsFiled(Erase(p, key, e), filings)
  {
    hide LastFiled;
    if p != [] && p[0] != Entry(key, e) {
      ErasedAsFiled(p[1..], filings, key, e);
      EraseHolds(p[1..], key, e);
      var q := Erase(p[1..], key, e);
      forall j | 0 <= j < |q| && p[0].key == q[j].key ensures LastFiled(filings, p[0]) < LastFiled(filings, q[j]) {
        assert q[j] in q && q[j] in p[1..];
      }
    }
  }

  lemma AddedAsFiled(s: State, e: EventId, v: Event, now: int, filings: seq<Entry>)
    requires Filed(s) && !Queued(s, e) && AsFiled(s.pending, filings)
    ensures AsFiled(AddEvent(s, e, v, now).pending, filings + [Entry(v.arrive, e)])
  {
    hide AsFiled, Insert;
    FiledBehind(s.pending, filings, Entry(v.arrive, e));
    assert AddEvent(s, e, v, now).pending == Insert(s.pending, Entry(v.arrive, e));
  }

  lemma {:induction false} RequeuedAsFiled(s: State, es: seq<EventId>, ticks: seq<int>, filings: seq<Entry>)
    requires Filed(s) && AsFiled(s.pending, filings) && Distinct(es) && |ticks| >= 2 * |es|
    requires forall e :: e in es ==> e in s.events && !Queued(s, e)
    ensures AsFiled(Requeue(s, es, ticks).pending, filings + Refilings(s.events, es, ticks))
    decreases |es|
  {
    hide AddEvent, Filed, AsFiled, Queued, RequeueEvent;
    FiledIsKnown(s);
    if es == [] {
      assert filings + [] == filings;
    } else {
      var m := RequeueEvent(s, es[0], ticks[0], ticks[1]);
      var first := if s.events[es[0]].repeated then [Entry(ticks[0] + s.events[es[0]].interval, es[0])] else [];
      assert es[0] in es;
      DistinctTail(es);
      RequeueOneRefiles(s, es[0], ticks[0], ticks[1]);
      RequeuedOneAsFiled(s, es[0], ticks[0], ticks[1], filings);
      RequeuedAsFiled(m, es[1..], ticks[2..], filings + first);
      SameRefilings(s.events, m.events, es[1..], ticks[2..]);
      var rest := Refilings(s.events, es[1..], ticks[2..]);
      assert filings + first + rest == filings + (first + rest);
    }
  }

  lemma RequeuedOneAsFiled(s: State, e: EventId, tick: int, now: int, filings: seq<Entry>)
    requires Filed(s) && e in s.events && !Queued(s, e) && AsFiled(s.pending, filings)
    ensures var v := s.events[e];
            AsFiled(RequeueEvent(s, e, tick, now).pending,
                    filings + if v.repeated then [Entry(tick + v.interval, e)] else [])
  {
    hide AddEvent, Filed, AsFiled, Queued;
    FiledIsKnown(s);
    var v := s.events[e];
    if v.repeated {
      AddedAsFiled(s, e, v.(arrive := tick + v.interval), now, filings);
    } else {
      assert filings + [] == filings;
    }
  }

  lemma {:induction false} SameRefilings(a: map<EventId, Event>, b: map<EventId, Event>, es: seq<EventId>,
                                         ticks: seq<int>)
    requires |ticks| >= 2 * |es| && forall e :: e in es ==> e in a && e in b && a[e] == b[e]
    ensures Refilings(a, es, ticks) == Refilings(b, es, ticks)
    decreases |es|
  {
    if es != [] {
      var rest, later := es[1..], ticks[2..];
      assert es[0] in es && forall e :: e in rest ==> e in es;
      SameRefilings(a, b, rest, later);
    }
  }

  lemma TimerAsFiled(s: State, at: int, now: int, ticks: seq<int>, filings: seq<Entry>)
    requires Filed(s) && |ticks| > 2 * |Collected(s, now)| && AsFiled(s.pending, filings)
    ensures AsFiled(FireDue(s, at, now, ticks).pending, filings + Refilings(s.events, Collected(s, now), ticks))
  {
    hide Collect, Collected, DueCount, Requeue, Refilings, Filed, Distinct;
    FiledIsKnown(s);
    var c, m := Collected(s, now), Taken(s, at, now);
    CollectExactly(s, now);
    TakenFiles(s, at, now);
    TailAsFiled(s.pending, DueCount(s.pending, now), filings);
    RequeuedAsFiled(m, c, ticks, filings);
  }

  lemma TailAsFiled(p: seq<Entry>, n: nat, filings: seq<Entry>)
    requires AsFiled(p, filings) && n <= |p|
    ensures AsFiled(p[n..], filings)
  {
    hide LastFiled;
  }

  lemma FilingsOne(w: World, op: Op)
    requires Known(w.s) && Legal(w, op)
    ensures LegalRun(w, [op])
    ensures Filings(w, [op]) == match op
                                case AddOp(e, v, _) => [Entry(v.arrive, e)]
                                case TimerOp(_, now, ticks) => Refilings(w.s.events, Collected(w.s, now), ticks)
                                case _ => []
  {
    hide AddEvent, FireDue, DeleteEvent, Collected, Refilings;
    assert [op][1..] == [];
    assert Filings(Step(w, op), [op][1..]) == [];
  }

  lemma StepAsFiled(w: World, op: Op, filings: seq<Entry>)
    requires Sound(w) && Legal(w, op) && AsFiled(w.s.pending, filings)
    ensures LegalRun(w, [op]) && AsFiled(Step(w, op).s.pending, filings + Filings(w, [op]))
  {
    hide AddEvent, FireDue, Wakes, Collected, AsFiled, Filed, Refilings;
    FiledIsKnown(w.s);
    FilingsOne(w, op);
    assert filings + [] == filings;
    match op
    case AddOp(e, v, now) => AddedAsFiled(w.s, e, v, now, filings);
    case DeleteOp(e, v) => ErasedAsFiled(w.s.pending, filings, v.arrive, e);
    case TimerOp(at, now, ticks) => TimerAsFiled(w.s, at, now, ticks, filings);
    case TaskOp =>
  }

  lemma {:induction false} RunAsFiled(w: World, ops: seq<Op>, filings: seq<Entry>)
    requires Sound(w) && LegalRun(w, ops) && AsFiled(w.s.pending, filings)
    ensures AsFiled(Run(w, ops).s.pending, filings + Filings(w, ops))
    decreases |ops|
  {
    hide Sound, Legal, Step, AsFiled;
    SoundIsKnown(w);
    if ops == [] {
      assert filings + [] == filings;
    } else {
      StepKeepsSound(w, ops[0]);
      StepAsFiled(w, ops[0], filings);
      FilingsSplit(w, ops);
      var first, rest := Filings(w, [ops[0]]), Filings(Step(w, ops[0]), ops[1..]);
      RunAsFiled(Step(w, ops[0]), ops[1..], filings + first);
      assert filings + first + rest == filings + (first + rest);
    }
  }

  lemma FilingsSplit(w: World, ops: seq<Op>)
    requires Known(w.s) && ops != [] && LegalRun(w, ops)
    ensures LegalRun(w, [ops[0]])
    ensures Filings(w, ops) == Filings(w, [ops[0]]) + Filings(Step(w, ops[0]), ops[1..])
  {
    hide Step, Legal, Refilings;
    assert [ops[0]][1..] == [];
    assert Filings(Step(w, ops[0]), [ops[0]][1..]) == [];
  }

  /** Events that one call of `onTimer` collects come in order of arrival, and those of one arrival in the order in
      which they were last filed, be it by `addTimerEvent` or by a repeat. */
  lemma CollectedAsFiled(clock: int, ops: seq<Op>, at: int, now: int, ticks: seq<int>, i: nat, j: nat)
    requires LegalRun(Start(clock), ops) && Legal(Run(Start(clock), ops), TimerOp(at, now, ticks))
    requires i < j < |Collected(Run(Start(clock), ops).s, now)|
    ensures var s, filings := Run(Start(clock), ops).s, Filings(Start(clock), ops);
            var c := Collected(s, now);
            var a, b := Entry(s.events[c[i]].arrive, c[i]), Entry(s.events[c[j]].arrive, c[j]);
            a.key < b.key || (a.key == b.key && LastFiled(filings, a) < LastFiled(filings, b))
  {
    assert Sound(Start(clock));
    hide Run, LegalRun, Legal, LastFiled, Filings, Collect, DueCount, Filed;
    RunKeepsSound(Start(clock), ops);
    RunAsFiled(Start(clock), ops, []);
    var s, filings := Run(Start(clock), ops).s, Filings(Start(clock), ops);
    assert [] + filings == filings;
    var due := s.pending[..DueCount(s.pending, now)];
    FiledIsKnown(s);
    assert forall x :: x in due ==> x in s.pending;
    var p, q := CollectedPlaces(due, s.events, i, j);
    FiledApart(s, filings, p, q);
  }

  lemma {:induction false} CollectedPlaces(due: seq<Entry>, events: map<EventId, Event>, i: nat, j: nat)
    returns (p: nat, q: nat)
    requires (forall x :: x in due ==> x.event in events) && i < j < |Collect(due, events)|
    ensures p < q < |due| && due[p].event == Collect(due, events)[i] && due[q].event == Collect(due, events)[j]
    decreases |due|
  {
    var n := |due| - 1;
    assert due == due[..n] + [due[n]];
    CollectMore(due[..n], due[n], events);
    var before := Collect(due[..n], events);
    if j < |before| {
      p, q := CollectedPlaces(due[..n], events, i, j);
    } else {
      p := CollectedPlace(due[..n], events, i);
      q := n;
    }
  }

  lemma {:induction false} CollectedPlace(due: seq<Entry>, events: map<EventId, Event>, i: nat) returns (p: nat)
    requires (forall x :: x in due ==> x.event in events) && i < |Collect(due, events)|
    ensures p < |due| && due[p].event == Collect(due, events)[i]
    decreases |due|
  {
    var n := |due| - 1;
    assert due == due[..n] + [due[n]];
    CollectMore(due[..n], due[n], events);
    if i < |Collect(due[..n], events)| {
      p := CollectedPlace(due[..n], events, i);
    } else {
      p := n;
    }
  }

  lemma FiledApart(s: State, filings: seq<Entry>, p: nat, q: nat)
    requires Filed(s) && AsFiled(s.pending, filings) && p < q < |s.pending|
    ensures var x, y := s.pending[p], s.pending[q];
            && s.events[x.event].arrive == x.key && s.events[y.event].arrive == y.key
            && (x.key < y.key || (x.key == y.key && LastFiled(filings, x) < LastFiled(filings, y)))
  {
    hide LastFiled;
    assert s.pending[p] in s.pending && s.pending[q] in s.pending;
  }

  /** The events of the log, in order. */
  function EventsOf(log: seq<Fire>): seq<EventId> {
    seq(|log|, i requires 0 <= i < |log| => log[i].event)
  }

  /** Each collected event runs exactly once, in the order of collection, unless it still waits for its turn. */
  lemma {:induction false} RunsAsCollected(w: World, ops: seq<Op>)
    requires Sound(w) && LegalRun(w, ops) && EventsOf(w.log) == w.ran + w.tasks
    ensures var w' := Run(w, ops); EventsOf(w'.log) == w'.ran + w'.tasks
    decreases |ops|
  {
    hide Sound, Legal, Step, EventsOf;
    SoundIsKnown(w);
    if ops != [] {
      StepKeepsSound(w, ops[0]);
      StepRunsAsCollected(w, ops[0]);
      RunsAsCollected(Step(w, ops[0]), ops[1..]);
    }
  }

  lemma StepRunsAsCollected(w: World, op: Op)
    requires Known(w.s) && Legal(w, op) && EventsOf(w.log) == w.ran + w.tasks
    ensures var w' := Step(w, op); EventsOf(w'.log) == w'.ran + w'.tasks
  {
    hide AddEvent, DeleteEvent, FireDue, Collected;
    match op
    case TimerOp(_, now, _) =>
      var c := Collected(w.s, now);
      assert EventsOf(w.log + Fires(c, now)) == EventsOf(w.log) + c;
    case TaskOp =>
      assert w.ran + w.tasks == w.ran + [w.tasks[0]] + w.tasks[1..];
    case _ =>
  }
}
