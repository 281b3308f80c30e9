/** What every run of the timer keeps: no lost wakeup, exact firing, spacing of repeats, cancellation. */
module TimerRuns {
  import opened Numerals
  import opened Timers

  predicate Queued(s: State, e: EventId) {
    exists x :: x in s.pending && x.event == e
  }

  /** The queue is in order, every event is filed once, and under its arrival time. */
  predicate Filed(s: State) {
    && Known(s) && Sorted(s.pending)
    && (forall x :: x in s.pending ==> s.events[x.event].arrive == x.key)
    && (forall i, j :: 0 <= i < j < |s.pending| ==> s.pending[i].event != s.pending[j].event)
  }

  /** A waiting event means an armed descriptor, due no later than the first arrival or 100 ms from the clock. */
  predicate Wakes(s: State, clock: int) {
    s.pending != [] ==> s.fd.Armed? && s.fd.deadline <= Max(s.pending[0].key, clock + 100)
  }

  // One call.

  lemma RearmWakes(s: State, now: int)
    requires Filed(s)
    ensures var s' := Rearm(s, now); Filed(s') && Wakes(s', now) && s'.pending == s.pending && s'.events == s.events
  {
    assert s.pending != [] ==> s.pending[0] in s.pending;
  }

  lemma {:induction false} InsertDistinct(p: seq<Entry>, x: Entry)
    requires forall i, j :: 0 <= i < j < |p| ==> p[i].event != p[j].event
    requires forall y :: y in p ==> y.event != x.event
    ensures var q := Insert(p, x); forall i, j :: 0 <= i < j < |q| ==> q[i].event != q[j].event
  {
    if p != [] && x.key >= p[0].key {
      assert p == [p[0]] + p[1..];
      InsertDistinct(p[1..], x);
      InsertHolds(p[1..], x);
      var q := Insert(p[1..], x);
      forall i | 0 <= i < |q| ensures q[i].event != p[0].event {
        assert q[i] in q;
        if q[i] != x {
          var k :| 0 <= k < |p[1..]| && p[1..][k] == q[i];
          assert p[k + 1] == q[i];
        }
      }
    } else {
      assert forall i :: 0 <= i < |p| ==> p[i] in p;
    }
  }

  /** Adding an event that is not queued files it and disturbs nothing else. */
  lemma AddFiles(s: State, e: EventId, v: Event, now: int)
    requires Filed(s) && !Queued(s, e)
    ensures var s' := AddEvent(s, e, v, now);
            && Filed(s') && s'.events == s.events[e := v]
            && (forall x :: x in s'.pending <==> x == Entry(v.arrive, e) || x in s.pending)
  {
    hide Insert, Sorted;
    var x := Entry(v.arrive, e);
    InsertHolds(s.pending, x);
    InsertSorted(s.pending, x);
    InsertDistinct(s.pending, x);
  }

  lemma AddWakes(s: State, e: EventId, v: Event, clock: int, now: int)
    requires Filed(s) && !Queued(s, e) && Wakes(s, clock) && clock <= now
    ensures Wakes(AddEvent(s, e, v, now), now)
  {
    AddFiles(s, e, v, now);
    if s.pending != [] {
      assert s.pending[0] in s.pending;
    }
  }

  lemma {:induction false} EraseKeepsOrder(p: seq<Entry>, key: int, e: EventId)
    requires Sorted(p) && (forall i, j :: 0 <= i < j < |p| ==> p[i].event != p[j].event)
    requires forall x :: x in p && x.event == e ==> x.key == key
    ensures var q := Erase(p, key, e);
            && Sorted(q) && (forall i, j :: 0 <= i < j < |q| ==> q[i].event != q[j].event)
            && (forall x :: x in q <==> x in p && x.event != e)
  {
    hide Sorted;
    if p != [] {
      RestIsApart(p);
      assert p == [p[0]] + p[1..];
      if p[0] != Entry(key, e) {
        EraseKeepsOrder(p[1..], key, e);
        var q := Erase(p[1..], key, e);
        forall i | 0 <= i < |q| ensures p[0].key <= q[i].key && p[0].event != q[i].event {
          assert q[i] in q && q[i] in p[1..];
        }
        FirstIsApart(p[0], q);
      }
    }
  }

  lemma RestIsApart(p: seq<Entry>)
    requires p != [] && Sorted(p) && (forall i, j :: 0 <= i < j < |p| ==> p[i].event != p[j].event)
    ensures Sorted(p[1..]) && (forall i, j :: 0 <= i < j < |p[1..]| ==> p[1..][i].event != p[1..][j].event)
    ensures forall x :: x in p[1..] ==> p[0].key <= x.key && p[0].event != x.event
  {
  }

  lemma FirstIsApart(x: Entry, q: seq<Entry>)
    requires Sorted(q) && (forall i, j :: 0 <= i < j < |q| ==> q[i].event != q[j].event)
    requires forall i :: 0 <= i < |q| ==> x.key <= q[i].key && x.event != q[i].event
    ensures var r := [x] + q; Sorted(r) && (forall i, j :: 0 <= i < j < |r| ==> r[i].event != r[j].event)
  {
  }

  /** Deleting an event takes its entry out, marks it, and leaves the rest and the wakeup alone. */
  lemma DeleteFiles(s: State, e: EventId, v: Event, clock: int)
    requires Filed(s) && Wakes(s, clock) && (e in s.events ==> v == s.events[e])
    ensures var s' := DeleteEvent(s, e, v);
            && Filed(s') && Wakes(s', clock) && s'.events == s.events[e := v.(cancelled := true)]
            && (forall x :: x in s'.pending <==> x in s.pending && x.event != e)
  {
    hide Erase;
    EraseKeepsOrder(s.pending, v.arrive, e);
    var q := Erase(s.pending, v.arrive, e);
    if q != [] {
      assert q[0] in q && q[0] in s.pending;
    }
  }

  // `onTimer`.

  predicate Distinct(es: seq<EventId>) {
    forall i, j :: 0 <= i < j < |es| ==> es[i] != es[j]
  }

  /** Collected events: those due and not cancelled, each once, in order of arrival. */
  lemma CollectExactly(s: State, now: int)
    requires Filed(s)
    ensures var c := Collected(s, now);
            && (forall e :: e in c <==>
                  exists x :: x in s.pending && x.event == e && x.key <= now && !s.events[e].cancelled)
            && Distinct(c)
            && (forall i, j :: 0 <= i < j < |c| ==> s.events[c[i]].arrive <= s.events[c[j]].arrive)
  {
    hide Collect, DueCount, Distinct;
    var n := DueCount(s.pending, now);
    var due := s.pending[..n];
    CollectedKnown(due, s.events);
    DueIsDue(s.pending, now);
    FrontInOrder(s.pending, n);
    CollectInOrder(due, s.events);
  }

  lemma FrontInOrder(p: seq<Entry>, n: nat)
    requires Sorted(p) && (forall i, j :: 0 <= i < j < |p| ==> p[i].event != p[j].event) && n <= |p|
    ensures Sorted(p[..n]) && forall i, j :: 0 <= i < j < n ==> p[..n][i].event != p[..n][j].event
  {
  }

  lemma DueIsDue(p: seq<Entry>, now: int)
    requires Sorted(p)
    ensures var n := DueCount(p, now);
            && (forall x :: x in p[..n] <==> x in p && x.key <= now)
            && (forall x :: x in p[n..] <==> x in p && x.key > now)
  {
    var n := DueCount(p, now);
    assert forall i :: n <= i < |p| ==> p[i].key > now;
  }

  lemma {:induction false} CollectInOrder(due: seq<Entry>, events: map<EventId, Event>)
    requires forall x :: x in due ==> x.event in events && events[x.event].arrive == x.key
    requires Sorted(due) && forall i, j :: 0 <= i < j < |due| ==> due[i].event != due[j].event
    ensures var c := Collect(due, events);
            && (forall e :: e in c ==> e in events)
            && Distinct(c) && (forall i, j :: 0 <= i < j < |c| ==> events[c[i]].arrive <= events[c[j]].arrive)
  {
    hide Sorted, Distinct, Collect;
    if due != [] {
      RestInOrder(due, events);
      CollectInOrder(due[1..], events);
      CollectedKnown(due[1..], events);
      FirstInOrder(due[0], due[1..], Collect(due[1..], events), events);
      CollectStep(due, events);
    } else {
      CollectNone(due, events);
    }
  }

  lemma RestInOrder(due: seq<Entry>, events: map<EventId, Event>)
    requires due != [] && forall x :: x in due ==> x.event in events && events[x.event].arrive == x.key
    requires Sorted(due) && forall i, j :: 0 <= i < j < |due| ==> due[i].event != due[j].event
    ensures due[0].event in events && events[due[0].event].arrive == due[0].key
    ensures forall x :: x in due[1..] ==> x.event in events && events[x.event].arrive == x.key
    ensures Sorted(due[1..]) && forall i, j :: 0 <= i < j < |due[1..]| ==> due[1..][i].event != due[1..][j].event
    ensures forall i :: 0 <= i < |due[1..]| ==> due[0].key <= due[1..][i].key && due[0].event != due[1..][i].event
  {
    assert forall x :: x in due[1..] ==> x in due;
  }

  lemma CollectStep(due: seq<Entry>, events: map<EventId, Event>)
    requires due != [] && forall x :: x in due ==> x.event in events
    ensures forall x :: x in due[1..] ==> x.event in events
    ensures Collect(due, events) == Collect(due[1..], events)
            || Collect(due, events) == [due[0].event] + Collect(due[1..], events)
  {
    assert forall x :: x in due[1..] ==> x in due;
  }

  lemma CollectNone(due: seq<Entry>, events: map<EventId, Event>)
    requires due == []
    ensures Collect(due, events) == [] && Distinct([])
  {
  }

  lemma FirstInOrder(x: Entry, rest: seq<Entry>, c: seq<EventId>, events: map<EventId, Event>)
    requires x.event in events && events[x.event].arrive == x.key
    requires forall y :: y in rest ==> y.event in events && events[y.event].arrive == y.key
    requires forall i :: 0 <= i < |rest| ==> x.key <= rest[i].key && x.event != rest[i].event
    requires forall e :: e in c ==> exists y :: y in rest && y.event == e
    requires Distinct(c) && (forall e :: e in c ==> e in events)
    requires forall i, j :: 0 <= i < j < |c| ==> events[c[i]].arrive <= events[c[j]].arrive
    ensures var d := [x.event] + c;
            Distinct(d) && forall i, j :: 0 <= i < j < |d| ==> events[d[i]].arrive <= events[d[j]].arrive
  {
    forall i | 0 <= i < |c| ensures c[i] != x.event && events[x.event].arrive <= events[c[i]].arrive {
      assert c[i] in c;
      var y :| y in rest && y.event == c[i];
    }
  }

  /** `s'` files the repeating events of `es` again, at least `interval` after `now`, and changes no other event. */
  ghost predicate Refiles(s: State, es: seq<EventId>, now: int, s': State)
    requires Known(s) && Known(s') && forall e :: e in es ==> e in s.events
  {
    && s'.events.Keys == s.events.Keys
    && (forall e :: e in s.events && (e !in es || !s.events[e].repeated) ==> s'.events[e] == s.events[e])
    && (forall e :: e in es && s.events[e].repeated ==>
          s'.events[e] == s.events[e].(arrive := s'.events[e].arrive)
          && s'.events[e].arrive >= now + s.events[e].interval)
    && (forall x :: x in s'.pending <==>
          x in s.pending || (x.event in es && s.events[x.event].repeated && x.key == s'.events[x.event].arrive))
  }

  lemma {:induction false} RequeueRefiles(s: State, es: seq<EventId>, ticks: seq<int>, now: int)
    requires Filed(s) && Distinct(es) && |ticks| >= 2 * |es| && (forall t :: t in ticks ==> t >= now)
    requires forall e :: e in es ==> e in s.events && !Queued(s, e)
    ensures var s' := Requeue(s, es, ticks); Filed(s') && Refiles(s, es, now, s')
    decreases |es|
  {
    hide AddEvent, Filed, Refiles, Distinct, Queued, RequeueEvent;
    FiledIsKnown(s);
    if es == [] {
      RefilesNone(s, now);
    } else {
      assert es == [es[0]] + es[1..] && es[0] in es && ticks[0] in ticks;
      RequeueOneRefiles(s, es[0], ticks[0], ticks[1]);
      var m := RequeueEvent(s, es[0], ticks[0], ticks[1]);
      DistinctTail(es);
      assert forall t :: t in ticks[2..] ==> t in ticks;
      RequeueRefiles(m, es[1..], ticks[2..], now);
      RefilesCons(s, es, now, m, Requeue(m, es[1..], ticks[2..]));
    }
  }

  lemma RefilesNone(s: State, now: int)
    requires Known(s)
    ensures Refiles(s, [], now, s)
  {
  }

  lemma DistinctTail(es: seq<EventId>)
    requires es != [] && Distinct(es)
    ensures Distinct(es[1..]) && forall e :: e in es[1..] ==> e in es && e != es[0]
  {
  }

  lemma FiledIsKnown(s: State)
    requires Filed(s)
    ensures Known(s) && forall x :: x in s.pending ==> s.events[x.event].arrive == x.key
  {
  }

  lemma RequeueOneRefiles(s: State, e: EventId, tick: int, now: int)
    requires Filed(s) && e in s.events && !Queued(s, e)
    ensures var m := RequeueEvent(s, e, tick, now); var v := s.events[e];
            && Filed(m) && m.events == (if v.repeated then s.events[e := v.(arrive := tick + v.interval)] else s.events)
            && (forall x :: x in m.pending <==> (v.repeated && x == Entry(tick + v.interval, e)) || x in s.pending)
            && (forall d :: d != e ==> (Queued(m, d) <==> Queued(s, d)))
  {
    hide AddEvent, Filed;
    var v := s.events[e];
    if v.repeated {
      AddFiles(s, e, v.(arrive := tick + v.interval), now);
      var m := RequeueEvent(s, e, tick, now);
      forall d | d != e ensures Queued(m, d) <==> Queued(s, d) {}
    }
  }

  lemma RefilesCons(s: State, es: seq<EventId>, now: int, m: State, s': State)
    requires es != [] && Distinct(es) && Known(s) && Known(m) && Known(s')
    requires (forall e :: e in es ==> e in s.events && !Queued(s, e))
    requires forall x :: x in s.pending ==> s.events[x.event].arrive == x.key
    requires var e := es[0]; var v := s.events[e];
             && m.events.Keys == s.events.Keys && (forall d :: d in s.events && d != e ==> m.events[d] == s.events[d])
             && (if v.repeated
                 then m.events[e] == v.(arrive := m.events[e].arrive) && m.events[e].arrive >= now + v.interval
                 else m.events[e] == v)
             && (forall x :: x in m.pending <==> (v.repeated && x == Entry(m.events[e].arrive, e)) || x in s.pending)
    requires (forall e :: e in es[1..] ==> e in m.events && e != es[0]) && Refiles(m, es[1..], now, s')
    ensures Refiles(s, es, now, s')
  {
    var e := es[0];
    assert forall d :: d in es <==> d == e || d in es[1..];
    assert s'.events[e] == m.events[e];
    forall x ensures x in s'.pending <==>
          x in s.pending || (x.event in es && s.events[x.event].repeated && x.key == s'.events[x.event].arrive) {
    }
  }

  /** `onTimer` collects exactly the due events that are not cancelled, each once and in order of arrival; it takes
      every due entry out, files the repeating ones it collected again (later by their interval at least), keeps all
      other entries, and leaves the timer armed for whatever waits. */
  lemma FiresExactly(s: State, at: int, now: int, ticks: seq<int>)
    requires Filed(s) && |ticks| > 2 * |Collected(s, now)| && forall t :: t in ticks ==> t >= now
    ensures var c, s' := Collected(s, now), FireDue(s, at, now, ticks);
            && Filed(s') && Wakes(s', ticks[|ticks| - 1]) && s'.events.Keys == s.events.Keys
            && (forall e :: e in c <==>
                  exists x :: x in s.pending && x.event == e && x.key <= now && !s.events[e].cancelled)
            && Distinct(c)
            && (forall i, j :: 0 <= i < j < |c| ==> s.events[c[i]].arrive <= s.events[c[j]].arrive)
            && (forall x :: x in s'.pending <==>
                  (x in s.pending && x.key > now)
                  || (x.event in c && s.events[x.event].repeated && x.key == s'.events[x.event].arrive))
            && (forall e :: e in s.events && (e !in c || !s.events[e].repeated) ==> s'.events[e] == s.events[e])
            && (forall e :: e in c && s.events[e].repeated ==>
                  s'.events[e] == s.events[e].(arrive := s'.events[e].arrive)
                  && s'.events[e].arrive >= now + s.events[e].interval)
  {
    hide Requeue, Rearm, Collect, DueCount, Sorted, Distinct;
    var c, m := Collected(s, now), Taken(s, at, now);
    CollectExactly(s, now);
    TakenFiles(s, at, now);
    RequeueRefiles(m, c, ticks, now);
    RearmWakes(Requeue(m, c, ticks), ticks[|ticks| - 1]);
  }

  lemma TakenFiles(s: State, at: int, now: int)
    requires Filed(s)
    ensures var m := Taken(s, at, now);
            && Filed(m) && m.events == s.events
            && (forall x :: x in m.pending <==> x in s.pending && x.key > now)
            && (forall e :: e in Collected(s, now) ==> !Queued(m, e))
  {
    hide Collect, DueCount;
    DueIsDue(s.pending, now);
    CollectExactly(s, now);
    var n := DueCount(s.pending, now);
    SortedTail(s.pending, n);
    var m := Taken(s, at, now);
    assert forall i :: 0 <= i < |m.pending| ==> m.pending[i] == s.pending[n + i];
    forall e | e in Collected(s, now) ensures !Queued(m, e) {
      var x :| x in s.pending && x.event == e && x.key <= now;
      forall y | y in m.pending ensures y.event != e {
        assert y in s.pending && y.key > now && s.events[y.event].arrive == y.key;
      }
    }
  }

  // Runs.

  /** An event taken to run, and the clock reading it was due at. */
  datatype Fire = Fire(event: EventId, now: int)

  datatype Op =
    | AddOp(event: EventId, value: Event, now: int)
    | DeleteOp(event: EventId, value: Event)
    | TimerOp(at: int, now: int, ticks: seq<int>)
    | TaskOp  // the next collected task runs

  /** The timer, the last clock reading, the tasks collected but not yet run, and what has happened so far. */
  datatype World = World(s: State, clock: int, tasks: seq<EventId>, log: seq<Fire>, ran: seq<EventId>)

  function Start(clock: int): World {
    World(State([], map[], Idle), clock, [], [], [])
  }

  function Fires(es: seq<EventId>, now: int): seq<Fire> {
    seq(|es|, i requires 0 <= i < |es| => Fire(es[i], now))
  }

  /** A monotone clock, each event queued at most once, the value passed is the object's, and no `onTimer` while
      the last one is still running its tasks. */
  predicate Legal(w: World, op: Op)
    requires Known(w.s)
  {
    match op
    case AddOp(e, v, now) =>
      w.clock <= now && !Queued(w.s, e) && (if e in w.s.events then v == w.s.events[e] else !v.cancelled)
    case DeleteOp(e, v) => e in w.s.events ==> v == w.s.events[e]
    case TimerOp(at, now, ticks) =>
      && w.tasks == [] && w.clock <= at <= now && |ticks| > 2 * |Collected(w.s, now)|
      && (forall t :: t in ticks ==> now <= t <= ticks[|ticks| - 1])
    case TaskOp => w.tasks != []
  }

  function Step(w: World, op: Op): (w': World)
    requires Known(w.s) && Legal(w, op)
    ensures Known(w'.s)
  {
    match op
    case AddOp(e, v, now) => w.(s := AddEvent(w.s, e, v, now), clock := now)
    case DeleteOp(e, v) => w.(s := DeleteEvent(w.s, e, v))
    case TimerOp(at, now, ticks) =>
      var c := Collected(w.s, now);
      World(FireDue(w.s, at, now, ticks), ticks[|ticks| - 1], c, w.log + Fires(c, now), w.ran)
    case TaskOp => w.(tasks := w.tasks[1..], ran := w.ran + [w.tasks[0]])
  }

  predicate LegalRun(w: World, ops: seq<Op>)
    requires Known(w.s)
    decreases |ops|
  {
    ops == [] || (Legal(w, ops[0]) && LegalRun(Step(w, ops[0]), ops[1..]))
  }

  function Run(w: World, ops: seq<Op>): (w': World)
    requires Known(w.s) && LegalRun(w, ops)
    ensures Known(w'.s)
    decreases |ops|
  {
    if ops == [] then w else Run(Step(w, ops[0]), ops[1..])
  }

  // No lost wakeup.

  predicate Sound(w: World) {
    Filed(w.s) && Wakes(w.s, w.clock)
  }

  lemma StepKeepsSound(w: World, op: Op)
    requires Sound(w) && Legal(w, op)
    ensures Sound(Step(w, op)) && Step(w, op).clock >= w.clock
  {
    hide AddEvent, DeleteEvent, FireDue, Filed, Wakes, Collected;
    FiledIsKnown(w.s);
    match op
    case AddOp(e, v, now) =>
      AddFiles(w.s, e, v, now);
      AddWakes(w.s, e, v, w.clock, now);
    case DeleteOp(e, v) => DeleteFiles(w.s, e, v, w.clock);
    case TimerOp(at, now, ticks) =>
      assert ticks[0] in ticks;
      FiresExactly(w.s, at, now, ticks);
    case TaskOp =>
  }

  lemma {:induction false} RunKeepsSound(w: World, ops: seq<Op>)
    requires Sound(w) && LegalRun(w, ops)
    ensures Sound(Run(w, ops)) && Run(w, ops).clock >= w.clock
    decreases |ops|
  {
    hide Sound, Legal, Step;
    SoundIsKnown(w);
    if ops != [] {
      StepKeepsSound(w, ops[0]);
      RunKeepsSound(Step(w, ops[0]), ops[1..]);
    }
  }

  lemma SoundIsKnown(w: World)
    requires Sound(w)
    ensures Known(w.s)
  {
  }

  /** In every reachable state a waiting event means an armed descriptor, due by the first arrival or within
      100 ms of the last clock reading. */
  lemma NoLostWakeup(clock: int, ops: seq<Op>)
    requires LegalRun(Start(clock), ops)
    ensures Wakes(Run(Start(clock), ops).s, Run(Start(clock), ops).clock)
  {
    RunKeepsSound(Start(clock), ops);
  }

  // Deletion.

  /** Once cancelled, an event is never collected again; only a task collected before can still run. */
  predicate Cancelled(w: World, e: EventId)
    requires Known(w.s)
  {
    e in w.s.events && w.s.events[e].cancelled
  }

  lemma StepAfterCancel(w: World, op: Op, e: EventId)
    requires Sound(w) && Legal(w, op) && Cancelled(w, e)
    ensures var w' := Step(w, op);
            && Cancelled(w', e)
            && (forall f :: f in w'.log && f.event == e ==> f in w.log)
            && multiset(w'.ran)[e] + multiset(w'.tasks)[e] == multiset(w.ran)[e] + multiset(w.tasks)[e]
  {
    hide AddEvent, DeleteEvent, FireDue, Wakes, Collected;
    match op
    case AddOp(d, v, now) => AddFiles(w.s, d, v, now);
    case DeleteOp(d, v) => DeleteFiles(w.s, d, v, w.clock);
    case TimerOp(at, now, ticks) => FiresExactly(w.s, at, now, ticks);
    case TaskOp =>
      assert w.tasks == [w.tasks[0]] + w.tasks[1..];
  }

  lemma {:induction false} RunAfterCancel(w: World, ops: seq<Op>, e: EventId)
    requires Sound(w) && LegalRun(w, ops) && Cancelled(w, e)
    ensures var w' := Run(w, ops);
            && Cancelled(w', e)
            && (forall f :: f in w'.log && f.event == e ==> f in w.log)
            && multiset(w'.ran)[e] + multiset(w'.tasks)[e] == multiset(w.ran)[e] + multiset(w.tasks)[e]
    decreases |ops|
  {
    hide Sound, Legal, Step, Cancelled;
    SoundIsKnown(w);
    if ops != [] {
      StepKeepsSound(w, ops[0]);
      StepAfterCancel(w, ops[0], e);
      RunAfterCancel(Step(w, ops[0]), ops[1..], e);
    }
  }

  function Drain(n: nat): seq<Op> {
    seq(n, _ => TaskOp)
  }

  lemma {:induction false} DrainRuns(w: World)
    requires Known(w.s)
    ensures LegalRun(w, Drain(|w.tasks|)) && Run(w, Drain(|w.tasks|)).ran == w.ran + w.tasks
    decreases |w.tasks|
  {
    hide Collected;
    var ops := Drain(|w.tasks|);
    if w.tasks != [] {
      var w' := Step(w, TaskOp);
      assert ops[0] == TaskOp && ops[1..] == Drain(|w'.tasks|);
      DrainRuns(w');
      assert w'.ran + w'.tasks == w.ran + w.tasks;
    }
  }

  /** After `deleteTimerEvent(e)` no `onTimer` collects `e` again, and some later step runs its task exactly when
      the last `onTimer` had collected it and not got to it yet. */
  lemma DeletedRunsIffCollected(w: World, e: EventId, v: Event)
    requires Sound(w) && Legal(w, DeleteOp(e, v))
    ensures var d := Step(w, DeleteOp(e, v));
            && (forall ops, f :: LegalRun(d, ops) && f in Run(d, ops).log && f.event == e ==> f in w.log)
            && ((exists ops :: LegalRun(d, ops) && multiset(Run(d, ops).ran)[e] > multiset(w.ran)[e]) <==> e in w.tasks)
  {
    hide Run, LegalRun, DeleteEvent, Filed, Wakes;
    FiledIsKnown(w.s);
    var d := Step(w, DeleteOp(e, v));
    StepKeepsSound(w, DeleteOp(e, v));
    DeleteFiles(w.s, e, v, w.clock);
    forall ops | LegalRun(d, ops)
      ensures (forall f :: f in Run(d, ops).log && f.event == e ==> f in w.log)
              && multiset(Run(d, ops).ran)[e] <= multiset(w.ran)[e] + multiset(w.tasks)[e]
    {
      RunAfterCancel(d, ops, e);
    }
    if e in w.tasks {
      DrainRuns(d);
      assert multiset(d.ran + d.tasks)[e] > multiset(w.ran)[e];
    }
  }

  /** Such a deletion can come: an event that arrives at 5 is collected at 5, is deleted then, and runs. */
  lemma DeletedEventRuns()
    ensures var v := Event(5, 5, false, false);
            var ops := [AddOp(0, v, 0), TimerOp(5, 5, [5, 5, 5])];
            && LegalRun(Start(0), ops) && Run(Start(0), ops).tasks == [0]
            && LegalRun(Run(Start(0), ops), [DeleteOp(0, v), TaskOp])
            && Run(Run(Start(0), ops), [DeleteOp(0, v), TaskOp]).ran == [0]
  {
    hide LegalRun, Run;
    var v := Event(5, 5, false, false);
    var w := CollectedAtFive(v);
    RunBoth(Start(0), AddOp(0, v, 0), TimerOp(5, 5, [5, 5, 5]));
    RunBoth(w, DeleteOp(0, v), TaskOp);
  }

  lemma CollectedAtFive(v: Event) returns (w: World)
    requires v == Event(5, 5, false, false)
    ensures Legal(Start(0), AddOp(0, v, 0)) && Legal(Step(Start(0), AddOp(0, v, 0)), TimerOp(5, 5, [5, 5, 5]))
    ensures w == Step(Step(Start(0), AddOp(0, v, 0)), TimerOp(5, 5, [5, 5, 5]))
    ensures w.tasks == [0] && w.ran == [] && w.s.events == map[0 := v]
  {
    var u := Step(Start(0), AddOp(0, v, 0));
    assert u.s.pending == [Entry(5, 0)] && u.s.events == map[0 := v];
    assert Collected(u.s, 5) == [0];
    w := Step(u, TimerOp(5, 5, [5, 5, 5]));
  }

  lemma RunBoth(w: World, op: Op, next: Op)
    requires Known(w.s) && Legal(w, op) && Legal(Step(w, op), next)
    ensures LegalRun(w, [op, next]) && Run(w, [op, next]) == Step(Step(w, op), next)
  {
    hide Step, Legal;
    var u := Step(w, op);
    var last, rest := Step(u, next), [next][1..];
    assert [op, next][1..] == [next] && rest == [];
    assert LegalRun(last, rest) && Run(last, rest) == last;
    assert LegalRun(u, [next]) && Run(u, [next]) == last;
  }

  // Spacing.

  /** The clock readings at which `e` was collected. */
  function Times(log: seq<Fire>, e: EventId): seq<int> {
    if log == [] then []
    else Times(log[..|log| - 1], e) + if log[|log| - 1].event == e then [log[|log| - 1].now] else []
  }

  predicate Spaced(ts: seq<int>, interval: int) {
    forall i :: 0 <= i < |ts| - 1 ==> ts[i + 1] - ts[i] >= interval
  }

  /** The firings of a repeating event so far are spaced, and it waits until the next may come. */
  predicate Steady(w: World, e: EventId) {
    var ts := Times(w.log, e);
    if e !in w.s.events then ts == []
    else
      var v := w.s.events[e];
      v.repeated ==>
        Spaced(ts, v.interval) &&
        (ts != [] && !v.cancelled ==> Queued(w.s, e) && v.arrive >= ts[|ts| - 1] + v.interval)
  }

  lemma {:induction false} TimesMore(log: seq<Fire>, es: seq<EventId>, now: int, e: EventId)
    requires Distinct(es)
    ensures Times(log + Fires(es, now), e) == Times(log, e) + if e in es then [now] else []
  {
    if es == [] {
      assert log + Fires(es, now) == log;
    } else {
      var n := |es| - 1;
      var all := log + Fires(es, now);
      assert es == es[..n] + [es[n]] && es[n] !in es[..n];
      assert all[..|all| - 1] == log + Fires(es[..n], now) && all[|all| - 1] == Fire(es[n], now);
      TimesMore(log, es[..n], now, e);
    }
  }

  lemma StepKeepsSteady(w: World, op: Op, e: EventId)
    requires Sound(w) && Legal(w, op) && Steady(w, e)
    ensures Steady(Step(w, op), e)
  {
    hide AddEvent, DeleteEvent, FireDue, Wakes, Collected, Times, Filed;
    FiledIsKnown(w.s);
    match op
    case AddOp(d, v, now) =>
      AddFiles(w.s, d, v, now);
      QueuedCarries(w.s, Step(w, op).s, e);
    case DeleteOp(d, v) =>
      DeleteFiles(w.s, d, v, w.clock);
      if d != e {
        QueuedCarries(w.s, Step(w, op).s, e);
      }
    case TimerOp(at, now, ticks) => TimerKeepsSteady(w, at, now, ticks, e);
    case TaskOp =>
  }

  lemma QueuedCarries(s: State, s': State, e: EventId)
    requires forall x :: x in s.pending && x.event == e ==> x in s'.pending
    ensures Queued(s, e) ==> Queued(s', e)
  {
  }

  lemma TimerKeepsSteady(w: World, at: int, now: int, ticks: seq<int>, e: EventId)
    requires Sound(w) && Legal(w, TimerOp(at, now, ticks)) && Steady(w, e)
    ensures Steady(Step(w, TimerOp(at, now, ticks)), e)
  {
    hide FireDue, Wakes, Collected, Times, Filed;
    FiledIsKnown(w.s);
    FiresExactly(w.s, at, now, ticks);
    var c, w' := Collected(w.s, now), Step(w, TimerOp(at, now, ticks));
    TimesMore(w.log, c, now, e);
    if e in w.s.events && w.s.events[e].repeated {
      if e in c {
        var x :| x in w.s.pending && x.event == e && x.key <= now;
        assert Entry(w'.s.events[e].arrive, e) in w'.s.pending;
      } else if Queued(w.s, e) && !w.s.events[e].cancelled {
        QueuedCarries(w.s, w'.s, e);
      }
    }
  }

  lemma {:induction false} RunKeepsSteady(w: World, ops: seq<Op>, e: EventId)
    requires Sound(w) && LegalRun(w, ops) && Steady(w, e)
    ensures Steady(Run(w, ops), e)
    decreases |ops|
  {
    hide Sound, Legal, Step, Steady;
    SoundIsKnown(w);
    if ops != [] {
      StepKeepsSound(w, ops[0]);
      StepKeepsSteady(w, ops[0], e);
      RunKeepsSteady(Step(w, ops[0]), ops[1..], e);
    }
  }

  lemma {:induction false} SpacedAll(ts: seq<int>, interval: int, i: nat, j: nat)
    requires Spaced(ts, interval) && i <= j < |ts|
    ensures ts[j] - ts[i] >= (j - i) * interval
  {
    if i < j {
      SpacedAll(ts, interval, i, j - 1);
      assert (j - i) * interval == (j - 1 - i) * interval + interval;
    }
  }

  /** However late `onTimer` is called: the i-th and the j-th time a repeating event is collected are at least
      (j - i) intervals apart. */
  lemma RateBound(clock: int, ops: seq<Op>, e: EventId, i: nat, j: nat)
    requires LegalRun(Start(clock), ops)
    requires var w := Run(Start(clock), ops); e in w.s.events && w.s.events[e].repeated && i <= j < |Times(w.log, e)|
    ensures var w := Run(Start(clock), ops); var ts := Times(w.log, e);
            ts[j] - ts[i] >= (j - i) * w.s.events[e].interval
  {
    hide Run, LegalRun;
    RunKeepsSteady(Start(clock), ops, e);
    var w := Run(Start(clock), ops);
    SpacedAll(Times(w.log, e), w.s.events[e].interval, i, j);
  }
}
