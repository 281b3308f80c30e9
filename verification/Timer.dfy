/** The timer queue of netrpc/net/timer.cc and netrpc/net/timer_event.cc over a one-shot timer descriptor. */
module Timers {

  type EventId = nat

  /** The value of a timer event object. */
  datatype Event = Event(arrive: int, interval: int, repeated: bool, cancelled: bool)

  /** An entry of the multimap: the arrival time it was filed under, and the event. */
  datatype Entry = Entry(key: int, event: EventId)

  /** The one-shot descriptor: idle, or due to become readable at a time. */
  datatype Fd = Idle | Armed(deadline: int)

  datatype State = State(pending: seq<Entry>, events: map<EventId, Event>, fd: Fd)

  /** `timerfd_settime` with a relative time: zero disarms, an invalid value is refused. */
  function SetTime(fd: Fd, now: int, sec: int, nsec: int): Fd {
    if sec < 0 || !(0 <= nsec < 1_000_000_000) then fd
    else if sec == 0 && nsec == 0 then Idle
    else Armed(now + sec * 1000 + nsec / 1_000_000)
  }

  function Interval(arrive: int, now: int): int {
    if arrive > now then arrive - now else 100
  }

  /** The time set is valid, not zero, and exact to the millisecond: an arrival in the future is the deadline, any
      other gives one 100 ms ahead. */
  lemma ArmsForInterval(fd: Fd, arrive: int, now: int)
    ensures var i := Interval(arrive, now);
            SetTime(fd, now, i / 1000, i % 1000 * 1_000_000) == Armed(if arrive > now then arrive else now + 100)
  {
    var i := Interval(arrive, now);
    assert i % 1000 * 1_000_000 / 1_000_000 == i % 1000;
  }

  /** `multimap::emplace`: behind the entries with the same key. */
  function Insert(p: seq<Entry>, x: Entry): seq<Entry> {
    if p == [] || x.key < p[0].key then [x] + p else [p[0]] + Insert(p[1..], x)
  }

  predicate Known(s: State) {
    forall x :: x in s.pending ==> x.event in s.events
  }

  /** `Timer::resetArriveTime` with the clock at `now`. */
  function Rearm(s: State, now: int): State
    requires Known(s)
  {
    if s.pending == [] then s
    else
      assert s.pending[0] in s.pending;
      s.(fd := Armed(now + Interval(s.events[s.pending[0].event].arrive, now)))
  }

  /** `addTimerEvent` for an event with value `v`. */
  function AddEvent(s: State, e: EventId, v: Event, now: int): (s': State)
    requires Known(s)
    ensures Known(s')
  {
    var events := s.events[e := v];
    assert s.pending != [] ==> s.pending[0] in s.pending;
    var first := s.pending == [] || events[s.pending[0].event].arrive > v.arrive;
    InsertHolds(s.pending, Entry(v.arrive, e));
    var added := State(Insert(s.pending, Entry(v.arrive, e)), events, s.fd);
    if first then Rearm(added, now) else added
  }

  lemma {:induction false} InsertHolds(p: seq<Entry>, x: Entry)
    ensures forall y :: y in Insert(p, x) <==> y == x || y in p
    ensures multiset(Insert(p, x)) == multiset(p) + multiset{x} && |Insert(p, x)| == |p| + 1
  {
    if p != [] {
      assert p == [p[0]] + p[1..];
      if x.key >= p[0].key {
        InsertHolds(p[1..], x);
      }
    }
  }

  /** `erase` of the first entry for `e` among those filed under `key`. */
  function Erase(p: seq<Entry>, key: int, e: EventId): seq<Entry> {
    if p == [] then []
    else if p[0] == Entry(key, e) then p[1..]
    else [p[0]] + Erase(p[1..], key, e)
  }

  lemma {:induction false} EraseHolds(p: seq<Entry>, key: int, e: EventId)
    ensures forall y :: y in Erase(p, key, e) ==> y in p
  {
    if p != [] && p[0] != Entry(key, e) {
      EraseHolds(p[1..], key, e);
    }
  }

  /** `deleteTimerEvent` for an event with value `v`. */
  function DeleteEvent(s: State, e: EventId, v: Event): (s': State)
    requires Known(s)
    ensures Known(s')
  {
    EraseHolds(s.pending, v.arrive, e);
    State(Erase(s.pending, v.arrive, e), s.events[e := v.(cancelled := true)], s.fd)
  }

  /** Entries at the front that are due. */
  function DueCount(p: seq<Entry>, now: int): (n: nat)
    ensures n <= |p|
    ensures forall i :: 0 <= i < n ==> p[i].key <= now
    ensures n < |p| ==> p[n].key > now
  {
    if p == [] || p[0].key > now then 0 else 1 + DueCount(p[1..], now)
  }

  /** The events of `due` that are not cancelled: those whose tasks run. */
  function Collect(due: seq<Entry>, events: map<EventId, Event>): seq<EventId>
    requires forall x :: x in due ==> x.event in events
  {
    if due == [] then []
    else
      (assert due[0] in due;
       if events[due[0].event].cancelled then [] else [due[0].event]) + Collect(due[1..], events)
  }

  /** A collected event filed again if it repeats. */
  function RequeueEvent(s: State, e: EventId, tick: int, now: int): (s': State)
    requires Known(s) && e in s.events
    ensures Known(s') && s'.events.Keys == s.events.Keys
  {
    var v := s.events[e];
    if v.repeated then AddEvent(s, e, v.(arrive := tick + v.interval), now) else s
  }

  /** The repeating ones among the collected events, filed again; two clock readings for each. */
  function Requeue(s: State, es: seq<EventId>, ticks: seq<int>): (s': State)
    requires Known(s) && |ticks| >= 2 * |es| && forall e :: e in es ==> e in s.events
    ensures Known(s') && s'.events.Keys == s.events.Keys
    decreases |es|
  {
    if es == [] then s else Requeue(RequeueEvent(s, es[0], ticks[0], ticks[1]), es[1..], ticks[2..])
  }

  /** The state after the due entries are gone and the expired descriptor has been read at `at`. */
  function Taken(s: State, at: int, now: int): (s': State)
    requires Known(s)
    ensures Known(s')
  {
    var n := DueCount(s.pending, now);
    s.(pending := s.pending[n..], fd := if s.fd.Armed? && s.fd.deadline <= at then Idle else s.fd)
  }

  function Collected(s: State, now: int): (es: seq<EventId>)
    requires Known(s)
    ensures forall e :: e in es ==> e in s.events
  {
    var due := s.pending[..DueCount(s.pending, now)];
    CollectedKnown(due, s.events);
    Collect(due, s.events)
  }

  lemma {:induction false} CollectedKnown(due: seq<Entry>, events: map<EventId, Event>)
    requires forall x :: x in due ==> x.event in events
    ensures forall e :: e in Collect(due, events) <==> exists x :: x in due && x.event == e && !events[e].cancelled
    ensures |Collect(due, events)| <= |due|
  {
    if due != [] {
      assert due == [due[0]] + due[1..];
      CollectedKnown(due[1..], events);
    }
  }

  /** `onTimer`: descriptor read at `at`, clock read at `now`, then readings `ticks` for the re-queued events
      and, last, for the final re-arming. */
  function FireDue(s: State, at: int, now: int, ticks: seq<int>): (s': State)
    requires Known(s) && |ticks| > 2 * |Collected(s, now)|
    ensures Known(s')
  {
    Rearm(Requeue(Taken(s, at, now), Collected(s, now), ticks), ticks[|ticks| - 1])
  }

  class TimerEvent {
    const id: EventId
    const interval: int
    const isRepeated: bool
    var arriveTime: int
    var isCancelled: bool

    constructor (id: EventId, interval: int, isRepeated: bool, now: int)
      ensures this.id == id && Value() == Event(now + interval, interval, isRepeated, false)
    {
      this.id, this.interval, this.isRepeated := id, interval, isRepeated;
      isCancelled := false;
      arriveTime := now + interval;
    }

    function Value(): Event
      reads this
    {
      Event(arriveTime, interval, isRepeated, isCancelled)
    }

    method ResetArriveTime(now: int)
      modifies this`arriveTime
      ensures arriveTime == now + interval
    {
      arriveTime := now + interval;
    }
  }

  predicate Sorted(p: seq<Entry>) {
    forall i, j :: 0 <= i < j < |p| ==> p[i].key <= p[j].key
  }

  /** `multimap::lower_bound` and `multimap::upper_bound`, as positions. */
  function LowerBound(p: seq<Entry>, key: int): (n: nat)
    ensures n <= |p| && forall i :: 0 <= i < n ==> p[i].key < key
    ensures n < |p| ==> p[n].key >= key
  {
    if p == [] || p[0].key >= key then 0 else 1 + LowerBound(p[1..], key)
  }

  function UpperBound(p: seq<Entry>, key: int): (n: nat)
    ensures n <= |p| && forall i :: 0 <= i < n ==> p[i].key <= key
    ensures n < |p| ==> p[n].key > key
  {
    if p == [] || p[0].key > key then 0 else 1 + UpperBound(p[1..], key)
  }

  /** The queue; an event object stands in it by its identity, and `known` leads to the object. */
  class Timer {
    var pending: seq<Entry>
    var fd: Fd
    var known: map<EventId, TimerEvent>

    ghost predicate Valid()
      reads this
    {
      && (forall i :: i in known ==> known[i].id == i)
      && (forall x :: x in pending ==> x.event in known)
      && Sorted(pending)
    }

    ghost function Events(): map<EventId, Event>
      reads this, known.Values
    {
      map i | i in known :: known[i].Value()
    }

    ghost function View(): (s: State)
      reads this, known.Values
      ensures Valid() ==> Known(s)
    {
      State(pending, Events(), fd)
    }

    /** An event object this timer has seen, or one whose identity is new to it. */
    ghost predicate Admits(e: TimerEvent)
      reads this
    {
      e.id in known ==> known[e.id] == e
    }

    constructor ()
      ensures Valid() && View() == State([], map[], Idle)
    {
      pending, fd, known := [], Idle, map[];
    }

    /** `Timer::resetArriveTime`. */
    method ResetArriveTime(now: int)
      requires Valid()
      modifies this`fd
      ensures Valid() && View() == Rearm(old(View()), now)
      ensures pending == [] ==> fd == old(fd)
      ensures pending != [] ==>
                pending[0] in pending
                && var arrive := known[pending[0].event].arriveTime;
                   fd == Armed(if arrive > now then arrive else now + 100)
    {
      if |pending| == 0 {
        return;
      }
      assert pending[0] in pending;
      var arrive := known[pending[0].event].arriveTime;
      var interval := 0;
      if arrive > now {
        interval := arrive - now;
      } else {
        interval := 100;
      }
      ArmsForInterval(fd, arrive, now);
      fd := SetTime(fd, now, interval / 1000, interval % 1000 * 1_000_000);
    }

    method AddTimerEvent(event: TimerEvent, now: int)
      requires Valid() && Admits(event)
      modifies this`pending, this`fd, this`known
      ensures Valid() && known == old(known)[event.id := event]
      ensures View() == AddEvent(old(View()), event.id, event.Value(), now)
    {
      hide Insert, Rearm;
      ghost var s := View();
      var resetTimer := false;
      if |pending| == 0 {
        resetTimer := true;
      } else {
        assert pending[0] in pending;
        if known[pending[0].event].arriveTime > event.arriveTime {
          resetTimer := true;
        }
      }
      var x := Entry(event.arriveTime, event.id);
      InsertHolds(pending, x);
      InsertSorted(pending, x);
      pending := Insert(pending, x);
      known := known[event.id := event];
      assert Events() == s.events[event.id := event.Value()];
      if resetTimer {
        ResetArriveTime(now);
      }
    }

    method DeleteTimerEvent(event: TimerEvent)
      requires Valid() && Admits(event)
      modifies this, event
      ensures Valid() && known == old(known)[event.id := event]
      ensures View() == DeleteEvent(old(View()), event.id, old(event.Value()))
    {
      hide Erase, Sorted, LowerBound, UpperBound;
      ghost var s, v := View(), event.Value();
      event.isCancelled := true;
      EraseEntry(event.arriveTime, event);
      known := known[event.id := event];
      assert Events() == s.events[event.id := v.(cancelled := true)];
    }

    /** The locked part of `deleteTimerEvent`. */
    method EraseEntry(key: int, event: TimerEvent)
      requires Valid()
      modifies this`pending
      ensures Valid() && pending == Erase(old(pending), key, event.id)
    {
      hide Erase;
      var it := FindEntry(key, event);
      if it < |pending| {
        EraseAt(pending, key, event.id, it);
        pending := pending[..it] + pending[it + 1..];
      } else {
        EraseNothing(pending, key, event.id);
      }
    }

    /** The search of `deleteTimerEvent` through the entries filed under `key`; the length when there is none. */
    method FindEntry(key: int, event: TimerEvent) returns (n: nat)
      requires Valid()
      ensures n <= |pending| && (n < |pending| ==> pending[n] == Entry(key, event.id))
      ensures forall i :: 0 <= i < n ==> pending[i] != Entry(key, event.id)
    {
      var begin, end := LowerBound(pending, key), UpperBound(pending, key);
      var it := begin;
      while it < end && pending[it].event != event.id
        invariant begin <= it <= |pending| && (it <= end || it == begin)
        invariant forall i :: begin <= i < it ==> pending[i].event != event.id
      {
        it := it + 1;
      }
      n := if it < end then it else |pending|;
    }

    /** Runs the due tasks: the events whose tasks run, in order. */
    method OnTimer(at: int, now: int, ticks: seq<int>) returns (tasks: seq<EventId>)
      requires Valid() && |ticks| > 2 * |pending|
      modifies this`pending, this`fd, this`known, known.Values
      ensures Valid() && known == old(known)
      ensures |Collected(old(View()), now)| <= |old(pending)| && tasks == Collected(old(View()), now)
      ensures View() == FireDue(old(View()), at, now, ticks)
    {
      hide Rearm, Requeue, AddEvent, Collect;
      ghost var s := View();
      tasks := TakeDue(at, now);
      CollectedFew(s, now);
      RequeueAll(tasks, ticks);
      ResetArriveTime(ticks[|ticks| - 1]);
    }

    /** Reads the descriptor, takes the due entries out, and keeps those not cancelled. */
    method TakeDue(at: int, now: int) returns (tasks: seq<EventId>)
      requires Valid()
      modifies this`pending, this`fd
      ensures Valid() && View() == Taken(old(View()), at, now) && tasks == Collected(old(View()), now)
    {
      hide Collected, DueCount, Sorted;
      ghost var s, events := View(), Events();
      if fd.Armed? && fd.deadline <= at {
        fd := Idle;
      }
      var n;
      n, tasks := DueTasks(now);
      assert Events() == events;
      CollectedIgnoresFd(s, fd, now);
      SortedTail(pending, n);
      pending := pending[n..];
      assert Events() == events;
    }

    /** The loop over the entries that are due. */
    method DueTasks(now: int) returns (n: nat, tasks: seq<EventId>)
      requires Valid()
      ensures n == DueCount(pending, now) && tasks == Collected(View(), now)
    {
      hide Collect, DueCount, Sorted;
      tasks := [];
      n := 0;
      CollectNothing(Events());
      while n < |pending| && pending[n].key <= now
        invariant 0 <= n <= |pending| && forall i :: 0 <= i < n ==> pending[i].key <= now
        invariant forall x :: x in pending[..n] ==> x.event in Events()
        invariant tasks == Collect(pending[..n], Events())
      {
        assert pending[n] in pending && pending[..n + 1] == pending[..n] + [pending[n]];
        CollectMore(pending[..n], pending[n], Events());
        if !known[pending[n].event].isCancelled {
          tasks := tasks + [pending[n].event];
        }
        n := n + 1;
      }
      DueCountIs(pending, now, n);
    }

    /** The loop that files the repeating events again. */
    method RequeueAll(tasks: seq<EventId>, ticks: seq<int>)
      requires Valid() && |ticks| >= 2 * |tasks| && forall e :: e in tasks ==> e in known
      modifies this`pending, this`fd, this`known, known.Values
      ensures Valid() && known == old(known)
      ensures View() == Requeue(old(View()), tasks, ticks)
    {
      hide AddEvent, Rearm, Requeue;
      ghost var goal := Requeue(View(), tasks, ticks);
      for i := 0 to |tasks|
        invariant Valid() && known == old(known)
        invariant Requeue(View(), tasks[i..], ticks[2 * i..]) == goal
      {
        RequeueStep(View(), tasks, ticks, i);
        RequeueOne(tasks[i], ticks[2 * i], ticks[2 * i + 1]);
      }
      RequeueEnd(View(), ticks[2 * |tasks|..]);
    }

    method RequeueOne(e: EventId, tick: int, now: int)
      requires Valid() && e in known
      modifies this`pending, this`fd, this`known, known.Values
      ensures Valid() && known == old(known) && View() == RequeueEvent(old(View()), e, tick, now)
    {
      hide AddEvent;
      ghost var s := View();
      var event := known[e];
      if event.isRepeated {
        event.ResetArriveTime(tick);
        ghost var v := s.events[e].(arrive := tick + event.interval);
        assert Events() == s.events[e := v];
        AddAfterReset(s, e, v, now);
        AddTimerEvent(event, now);
        assert known == old(known);
      }
    }
  }

  lemma RequeueStep(s: State, tasks: seq<EventId>, ticks: seq<int>, i: nat)
    requires Known(s) && i < |tasks| && |ticks| >= 2 * |tasks| && forall e :: e in tasks ==> e in s.events
    ensures Requeue(s, tasks[i..], ticks[2 * i..])
            == Requeue(RequeueEvent(s, tasks[i], ticks[2 * i], ticks[2 * i + 1]), tasks[i + 1..], ticks[2 * (i + 1)..])
  {
    hide AddEvent;
    assert tasks[i..][1..] == tasks[i + 1..] && ticks[2 * i..][2..] == ticks[2 * (i + 1)..];
  }

  lemma RequeueEnd(s: State, ticks: seq<int>)
    requires Known(s)
    ensures Requeue(s, [], ticks) == s
  {
  }

  lemma {:induction false} InsertSorted(p: seq<Entry>, x: Entry)
    requires Sorted(p)
    ensures Sorted(Insert(p, x))
  {
    if p != [] && x.key >= p[0].key {
      InsertSorted(p[1..], x);
      InsertHolds(p[1..], x);
      var q := Insert(p[1..], x);
      forall i | 0 <= i < |q| ensures p[0].key <= q[i].key {
        assert q[i] in q;
      }
    }
  }

  lemma {:induction false} EraseAt(p: seq<Entry>, key: int, e: EventId, n: nat)
    requires n < |p| && p[n] == Entry(key, e) && forall i :: 0 <= i < n ==> p[i] != Entry(key, e)
    ensures p[..n] + p[n + 1..] == Erase(p, key, e)
  {
    if n > 0 {
      EraseAt(p[1..], key, e, n - 1);
      assert p[..n] + p[n + 1..] == [p[0]] + (p[1..][..n - 1] + p[1..][n..]);
    }
  }

  lemma {:induction false} EraseNothing(p: seq<Entry>, key: int, e: EventId)
    requires forall i :: 0 <= i < |p| ==> p[i] != Entry(key, e)
    ensures Erase(p, key, e) == p
  {
    if p != [] {
      EraseNothing(p[1..], key, e);
      assert p == [p[0]] + p[1..];
    }
  }

  lemma AddAfterReset(s: State, e: EventId, v: Event, now: int)
    requires Known(s)
    ensures var m := s.(events := s.events[e := v]); Known(m) && AddEvent(m, e, v, now) == AddEvent(s, e, v, now)
  {
    assert s.events[e := v][e := v] == s.events[e := v];
  }

  lemma CollectedIgnoresFd(s: State, fd: Fd, now: int)
    requires Known(s)
    ensures Collected(s.(fd := fd), now) == Collected(s, now)
  {
  }

  lemma SortedTail(p: seq<Entry>, n: nat)
    requires Sorted(p) && n <= |p|
    ensures Sorted(p[n..]) && forall x :: x in p[n..] ==> x in p
  {
  }

  lemma CollectNothing(events: map<EventId, Event>)
    ensures Collect([], events) == []
  {
  }

  lemma {:induction false} CollectMore(due: seq<Entry>, x: Entry, events: map<EventId, Event>)
    requires x.event in events && forall y :: y in due ==> y.event in events
    ensures forall y :: y in due + [x] ==> y.event in events
    ensures Collect(due + [x], events) == Collect(due, events) + if events[x.event].cancelled then [] else [x.event]
  {
    if due == [] {
      assert due + [x] == [x];
    } else {
      assert due == [due[0]] + due[1..] && (due + [x])[1..] == due[1..] + [x];
      CollectMore(due[1..], x, events);
    }
  }

  lemma DueCountIs(p: seq<Entry>, now: int, n: nat)
    requires n <= |p| && (forall i :: 0 <= i < n ==> p[i].key <= now) && (n < |p| ==> p[n].key > now)
    ensures DueCount(p, now) == n
  {
  }

  lemma CollectedFew(s: State, now: int)
    requires Known(s)
    ensures |Collected(s, now)| <= |s.pending|
  {
    CollectedKnown(s.pending[..DueCount(s.pending, now)], s.events);
  }
}
