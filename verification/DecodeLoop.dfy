/** The decoding loop to its end, also after a negative length has moved the read index back. */
module DecodeLoop {
  import opened Bytes
  import opened TcpBuffers
  import opened TinyPB

  // The loop stops soon or never.

  ghost predicate NeverStops(b: Buf)
    requires b.Valid()
  {
    forall n: nat :: LoopFor(b, n).Running?
  }

  /** Some number of passes takes `b` to `c`. */
  ghost predicate Reaches(b: Buf, c: Buf)
    requires b.Valid()
  {
    exists k: nat :: k >= 1 && IsAfter(b, k, c)
  }

  predicate IsAfter(b: Buf, k: nat, c: Buf)
    requires b.Valid()
  {
    LoopFor(b, k).Running? && LoopFor(b, k).buf == c
  }

  lemma ReachesNext(b: Buf)
    requires b.Valid() && LoopBody(b).More?
    ensures Reaches(b, LoopBody(b).next)
  {
    hide LoopBody;
    var next := LoopBody(b).next;
    assert LoopFor(next, 0) == Running([], next);
    assert IsAfter(b, 1, next);
  }

  lemma ReachesOn(b: Buf, c: Buf)
    requires b.Valid() && c.Valid() && Reaches(b, c) && LoopBody(c).More?
    ensures Reaches(b, LoopBody(c).next)
  {
    hide LoopBody, LoopFor;
    var k: nat :| k >= 1 && IsAfter(b, k, c);
    LoopGoesOn(b, k, 1);
    OnePass(c);
    assert IsAfter(b, k + 1, LoopBody(c).next);
  }

  lemma OnePass(b: Buf)
    requires b.Valid() && LoopBody(b).More?
    ensures LoopFor(b, 1).Running? && LoopFor(b, 1).buf == LoopBody(b).next
  {
    hide LoopBody;
    assert LoopFor(LoopBody(b).next, 0) == Running([], LoopBody(b).next);
  }

  /** A buffer that comes back is there for ever. */
  lemma CycleRuns(b: Buf)
    requires b.Valid() && Reaches(b, b)
    ensures NeverStops(b)
  {
    var k: nat :| k >= 1 && IsAfter(b, k, b);
    forall n: nat ensures LoopFor(b, n).Running? {
      CycleRunsFor(b, k, n);
    }
  }

  lemma {:induction false} CycleRunsFor(b: Buf, k: nat, n: nat)
    requires b.Valid() && k >= 1 && IsAfter(b, k, b)
    ensures LoopFor(b, n).Running?
    decreases n
  {
    hide LoopFor;
    if n <= k {
      RunningBefore(b, n, k);
    } else {
      CycleRunsFor(b, k, n - k);
      LoopGoesOn(b, k, n - k);
    }
  }

  lemma {:induction false} StoppedStays(b: Buf, i: nat, j: nat)
    requires b.Valid() && i <= j && LoopFor(b, i).Stopped?
    ensures LoopFor(b, j) == LoopFor(b, i)
    decreases i
  {
    hide LoopBody;
    if i > 0 && LoopBody(b).More? {
      StoppedStays(LoopBody(b).next, i - 1, j - 1);
    }
  }

  lemma NeverAfterNext(b: Buf)
    requires b.Valid() && LoopBody(b).More? && NeverStops(LoopBody(b).next)
    ensures NeverStops(b)
  {
    hide LoopBody;
    forall n: nat ensures LoopFor(b, n).Running? {
      if n > 0 {
        assert LoopFor(LoopBody(b).next, n - 1).Running?;
      }
    }
  }

  /** A pass changes the read index only, or compacts and brings the write index down, by a third of the vector or
      more. */
  lemma PassMoves(b: Buf)
    requires b.Valid() && LoopBody(b).More?
    ensures var next := LoopBody(b).next;
            && |next.bytes| == |b.bytes| >= 3
            && (next == b.(read := next.read) || next.write + |b.bytes| / 3 <= b.write)
  {
    hide ScanFrom, ParseFrame, MoveRead;
    FoundInside(b.bytes, b.write, b.read);
    Moved(b, ScanFrom(b.bytes, b.write, b.read).pkLen);
  }

  lemma Moved(b: Buf, n: int)
    requires b.Valid() && |b.bytes| >= 3 && n <= b.ReadAble()
    ensures var next := MoveRead(b, n);
            && |next.bytes| == |b.bytes| >= 3
            && (next == b.(read := next.read) || next.write + |b.bytes| / 3 <= b.write)
  {
  }

  lemma {:induction false} FewIndices(s: set<nat>, n: nat)
    requires forall i :: i in s ==> i < n
    ensures |s| <= n
  {
    if n > 0 {
      FewIndices(s - {n - 1}, n - 1);
    } else {
      assert s == {};
    }
  }

  /** Passes after which a loop that will ever stop has stopped, once the read index has been at `visited` with the
      present bytes. */
  function Left(b: Buf, visited: nat): int {
    b.write * (|b.bytes| + 2) + (|b.bytes| + 2 - visited)
  }

  lemma LessLeft(w: nat, v: nat, c: nat)
    requires w < v
    ensures w * c + c <= v * c
  {
    assert (w + 1) * c <= v * c;
  }

  /** Where the read index has been with the present bytes leads to the present state, so coming back means never
      stopping; it can be in so many places only, and a compaction, which makes all of them new, brings the write
      index down. */
  lemma {:induction false} Chase(b: Buf, visited: set<nat>)
    requires b.Valid() && b.read !in visited
    requires forall v :: v in visited ==> v <= b.write && Reaches(b.(read := v), b)
    ensures Left(b, |visited|) >= 1
    ensures LoopFor(b, Left(b, |visited|)).Stopped? || NeverStops(b)
    decreases b.write, |b.bytes| + 1 - |visited|
  {
    hide LoopBody, LoopFor, NeverStops, Reaches;
    FewIndices(visited + {b.read}, |b.bytes| + 1);
    var m := Left(b, |visited|);
    assert m >= 1;
    if LoopBody(b).Stop? {
      StopsAtOnce(b);
      StoppedStays(b, 1, m);
    } else {
      var next := LoopBody(b).next;
      PassMoves(b);
      if next.write < b.write {
        Chase(next, {});
        LessLeft(next.write, b.write, |b.bytes| + 2);
        StopsAfter(b, Left(next, 0), m);
      } else if next.read == b.read || next.read in visited {
        ComesBack(b, visited);
        NeverAfterNext(b);
      } else {
        ChaseOn(b, visited);
        Chase(next, visited + {b.read});
        StopsAfter(b, Left(next, |visited + {b.read}|), m);
      }
    }
  }

  lemma StopsAtOnce(b: Buf)
    requires b.Valid() && LoopBody(b).Stop?
    ensures LoopFor(b, 1).Stopped?
  {
    hide LoopBody;
  }

  /** What the loop does after the first pass, it does. */
  lemma StopsAfter(b: Buf, k: nat, m: nat)
    requires b.Valid() && LoopBody(b).More? && k + 1 <= m
    requires LoopFor(LoopBody(b).next, k).Stopped? || NeverStops(LoopBody(b).next)
    ensures LoopFor(b, m).Stopped? || NeverStops(b)
  {
    hide LoopBody, NeverStops;
    if LoopFor(LoopBody(b).next, k).Stopped? {
      StoppedStays(LoopBody(b).next, k, m - 1);
    } else {
      NeverAfterNext(b);
    }
  }

  lemma ComesBack(b: Buf, visited: set<nat>)
    requires b.Valid() && LoopBody(b).More?
    requires var next := LoopBody(b).next;
             next == b.(read := next.read) && (next.read == b.read || next.read in visited)
    requires forall v :: v in visited ==> v <= b.write && Reaches(b.(read := v), b)
    ensures NeverStops(LoopBody(b).next)
  {
    hide LoopBody, Reaches, NeverStops, LoopFor;
    var next := LoopBody(b).next;
    if next.read == b.read {
      ReachesNext(b);
    } else {
      ReachesOn(next, b);
    }
    CycleRuns(next);
  }

  lemma ChaseOn(b: Buf, visited: set<nat>)
    requires b.Valid() && LoopBody(b).More? && LoopBody(b).next == b.(read := LoopBody(b).next.read)
    requires forall v :: v in visited ==> v <= b.write && Reaches(b.(read := v), b)
    ensures var next := LoopBody(b).next;
            forall v :: v in visited + {b.read} ==> v <= next.write && Reaches(next.(read := v), next)
  {
    hide LoopBody, Reaches, LoopFor;
    var next := LoopBody(b).next;
    forall v | v in visited + {b.read} ensures v <= next.write && Reaches(next.(read := v), next) {
      if v == b.read {
        ReachesNext(b);
        assert next.(read := v) == b;
      } else {
        ReachesOn(b.(read := v), b);
        assert next.(read := v) == b.(read := v);
      }
    }
  }

  function Bound(b: Buf): nat {
    b.write * (|b.bytes| + 2) + (|b.bytes| + 2)
  }

  /** From any buffer, the loop has stopped after so many passes, or never stops. */
  lemma StopsSoonOrNever(b: Buf)
    requires b.Valid()
    ensures LoopFor(b, Bound(b)).Running? <==> NeverStops(b)
  {
    hide LoopFor;
    Chase(b, {});
  }

  // The whole call.

  /** What a call of `decode` comes to: `Decode`, and where that has moved back the loop for as long as it may stop. */
  function DecodeAll(b: Buf): (d: Decoded)
    requires b.Valid()
    ensures d.rest.Valid() && !d.outcome.Rewinds?
    ensures !Decode(b).outcome.Rewinds? ==> d == Decode(b)
  {
    var d := Decode(b);
    if !d.outcome.Rewinds? then d
    else
      LoopEnds(d.rest, Bound(d.rest));
      match LoopFor(d.rest, Bound(d.rest))
      case Stopped(outcome, messages, rest) => Decoded(outcome, d.messages + messages, rest)
      case Running(messages, rest) => Decoded(Diverges, d.messages + messages, rest)
  }

  lemma {:induction false} LoopEnds(b: Buf, n: nat)
    requires b.Valid()
    ensures var l := LoopFor(b, n);
            if l.Running? then l.buf.Valid() else l.rest.Valid() && (l.outcome.Finished? || l.outcome.Undefined?)
    decreases n
  {
    hide LoopBody;
    if n > 0 && LoopBody(b).More? {
      LoopEnds(LoopBody(b).next, n - 1);
    }
  }

  /** Some number of passes makes the loop stop so. */
  ghost predicate StopsWith(b: Buf, d: Decoded)
    requires b.Valid()
  {
    exists k: nat :: LoopFor(b, k) == Stopped(d.outcome, d.messages, d.rest)
  }

  /** After some number of passes the loop is still running, with these messages pushed and this buffer. */
  ghost predicate RunsWith(b: Buf, d: Decoded)
    requires b.Valid()
  {
    exists k: nat :: LoopFor(b, k) == Running(d.messages, d.rest)
  }

  /** For every buffer: the call diverges if and only if the loop never stops, with what it has pushed at some time, and
      else stops with just this outcome, these messages and this buffer. */
  lemma DecodeAllIsTheLoop(b: Buf)
    requires b.Valid()
    ensures DecodeAll(b).outcome.Diverges? <==> NeverStops(b)
    ensures !DecodeAll(b).outcome.Diverges? <==> StopsWith(b, DecodeAll(b))
    ensures DecodeAll(b).outcome.Diverges? ==> RunsWith(b, DecodeAll(b))
  {
    hide LoopFor, Decode, DecodeAll, NeverStops, StopsWith, RunsWith;
    if Decode(b).outcome.Rewinds? {
      FollowedOn(b);
    } else {
      DecidedAtOnce(b);
    }
    if StopsWith(b, DecodeAll(b)) {
      StopsIsNotNever(b, DecodeAll(b));
    }
  }

  lemma StopsIsNotNever(b: Buf, d: Decoded)
    requires b.Valid() && StopsWith(b, d)
    ensures !NeverStops(b)
  {
    hide LoopFor;
    var k: nat :| LoopFor(b, k) == Stopped(d.outcome, d.messages, d.rest);
    assert !LoopFor(b, k).Running?;
  }

  lemma DecidedAtOnce(b: Buf)
    requires b.Valid() && !Decode(b).outcome.Rewinds?
    ensures if DecodeAll(b).outcome.Diverges? then NeverStops(b) && RunsWith(b, DecodeAll(b))
            else StopsWith(b, DecodeAll(b))
  {
    hide LoopFor, Decode, DecodeAll;
    var d, k := Decode(b), Passes(b);
    DecodeIsTheLoop(b, 0);
    if d.outcome.Diverges? {
      forall n: nat ensures LoopFor(b, n).Running? {
        DecodeIsTheLoop(b, n);
      }
    } else {
      assert LoopFor(b, k + 1) == Stopped(d.outcome, d.messages, d.rest);
    }
  }

  lemma FollowedOn(b: Buf)
    requires b.Valid() && Decode(b).outcome.Rewinds?
    ensures if DecodeAll(b).outcome.Diverges? then NeverStops(b) && RunsWith(b, DecodeAll(b))
            else StopsWith(b, DecodeAll(b))
  {
    hide LoopFor, Decode, NeverStops;
    var d, k := Decode(b), Passes(b);
    var m := Bound(d.rest);
    DecodeIsTheLoop(b, 0);
    StopsSoonOrNever(d.rest);
    LoopEnds(d.rest, m);
    LoopGoesOn(b, k, m);
    if LoopFor(d.rest, m).Running? {
      NeverAfter(b, k);
      assert LoopFor(b, k + m) == Running(DecodeAll(b).messages, DecodeAll(b).rest);
    } else {
      assert LoopFor(b, k + m) == Stopped(DecodeAll(b).outcome, DecodeAll(b).messages, DecodeAll(b).rest);
    }
  }

  lemma NeverAfter(b: Buf, k: nat)
    requires b.Valid() && LoopFor(b, k).Running?
    requires LoopFor(b, k).buf.Valid() && NeverStops(LoopFor(b, k).buf)
    ensures NeverStops(b)
  {
    hide LoopFor;
    forall n: nat ensures LoopFor(b, n).Running? {
      if n <= k {
        RunningBefore(b, n, k);
      } else {
        LoopGoesOn(b, k, n - k);
      }
    }
  }

  /** The decoding loop on the buffer object; messages are pushed onto `outMessages`. It is left where the original
      stops, and where it never does: when a pass has left the indices as they were, or when a loop that has moved
      back has not stopped within its bound. */
  method DecodeBuffer(outMessages: seq<Message>, buffer: TcpBuffer) returns (outcome: Outcome, messages: seq<Message>)
    requires buffer.Valid()
    modifies buffer
    ensures buffer.Valid() && (fresh(buffer.buffer) || buffer.buffer == old(buffer.buffer))
    ensures var d := DecodeAll(old(buffer.View()));
            outcome == d.outcome && messages == outMessages + d.messages && buffer.View() == d.rest
  {
    hide LoopBody, LoopFor;
    messages := outMessages;
    ghost var goal := Decode(buffer.View());
    while true
      invariant buffer.Valid() && (fresh(buffer.buffer) || buffer.buffer == old(buffer.buffer))
      invariant var d := Decode(buffer.View());
                goal.outcome == d.outcome && goal.rest == d.rest && outMessages + goal.messages == messages + d.messages
      decreases buffer.ReadAble(), buffer.readIndex
    {
      var read, write := buffer.readIndex, buffer.writeIndex;
      ghost var was := buffer.View();
      var stop, end, got := DecodeOnce(buffer);
      if stop {
        return end, messages;
      }
      MovesOn(was);
      if buffer.readIndex == read && buffer.writeIndex == write {
        return Diverges, messages;
      }
      if buffer.ReadAble() > write - read {
        outcome, messages := DecodeOn(messages + got, buffer);
        return;
      }
      ghost var rest := Decode(buffer.View()).messages;
      assert messages + (got + rest) == messages + got + rest;
      messages := messages + got;
    }
  }

  /** The loop from where it has moved back. */
  method DecodeOn(outMessages: seq<Message>, buffer: TcpBuffer) returns (outcome: Outcome, messages: seq<Message>)
    requires buffer.Valid()
    modifies buffer
    ensures buffer.Valid() && (fresh(buffer.buffer) || buffer.buffer == old(buffer.buffer))
    ensures match LoopFor(old(buffer.View()), Bound(old(buffer.View())))
            case Stopped(end, ms, rest) =>
              outcome == end && messages == outMessages + ms && buffer.View() == rest
            case Running(ms, rest) =>
              outcome == Diverges && messages == outMessages + ms && buffer.View() == rest
  {
    hide LoopBody;
    messages := outMessages;
    var left: nat := buffer.writeIndex * (buffer.buffer.Length + 2) + (buffer.buffer.Length + 2);
    ghost var goal := LoopFor(buffer.View(), left);
    while left > 0
      invariant buffer.Valid() && (fresh(buffer.buffer) || buffer.buffer == old(buffer.buffer))
      invariant var l := LoopFor(buffer.View(), left);
                goal == l.(messages := goal.messages) && outMessages + goal.messages == messages + l.messages
      decreases left
    {
      var stop, end, got := DecodeOnce(buffer);
      if stop {
        return end, messages;
      }
      left := left - 1;
      ghost var more := LoopFor(buffer.View(), left).messages;
      assert messages + (got + more) == messages + got + more;
      messages := messages + got;
    }
    return Diverges, messages;
  }
}
