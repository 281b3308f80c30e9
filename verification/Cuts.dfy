/** Exactly which unfinished tails the decoder keeps for later, behind whole frames or by themselves. */
module Cuts {
  import opened Bytes
  import opened TcpBuffers
  import opened TinyPB
  import opened DecodeLoop
  import opened FrameStreams
  import opened Delivery

  // A tail by itself.

  lemma {:induction false} ZeroValue(s: seq<Byte>)
    requires Value(s) == 0
    ensures s == Zeros(|s|)
  {
    if s != [] {
      ZeroValue(s[..|s| - 1]);
    }
  }

  /** A frame of length zero ends before it starts; compacting the buffer does not make it harmless. */
  lemma NothingFoundAgain(b: Buf, k: nat)
    requires b.Valid() && b.read <= k < b.write && b.bytes[k] == PB_START && k + 1 < b.write && k + 5 <= |b.bytes|
    requires GetInt32(b.bytes, k + 1) == 0 && k > 0 && b.bytes[k - 1] == PB_END
    ensures var f := Front(b, b.ReadAble(), |b.bytes|); !HarmlessFrom(f.bytes, f.write, 0)
  {
    hide GetInt32;
    var f, i := Front(b, b.ReadAble(), |b.bytes|), k - b.read;
    ZeroFieldMoves(b, k);
    assert !Harmless(f.bytes, f.write, i);
  }

  lemma ZeroFieldMoves(b: Buf, k: nat)
    requires b.Valid() && b.read <= k && k + 1 < b.write && k + 5 <= |b.bytes| && GetInt32(b.bytes, k + 1) == 0
    ensures var f, i := Front(b, b.ReadAble(), |b.bytes|), k - b.read;
            && f.bytes[i] == b.bytes[k] && (i > 0 ==> f.bytes[i - 1] == b.bytes[k - 1]) && GetInt32(f.bytes, i + 1) == 0
  {
    hide GetInt32, Zeros;
    var f, i := Front(b, b.ReadAble(), |b.bytes|), k - b.read;
    ZeroField(b.bytes, k + 1);
    ZeroField(f.bytes, i + 1);
    FrontBytes(b);
  }

  lemma FrontBytes(b: Buf)
    requires b.Valid()
    ensures var f := Front(b, b.ReadAble(), |b.bytes|);
            forall p :: 0 <= p < |f.bytes| ==> f.bytes[p] == if p < f.write then b.bytes[b.read + p] else 0
  {
  }

  /** Only four zero bytes read as the number zero. */
  lemma ZeroField(s: seq<Byte>, i: nat)
    requires i + 4 <= |s|
    ensures GetInt32(s, i) == 0 <==> s[i] == 0 && s[i + 1] == 0 && s[i + 2] == 0 && s[i + 3] == 0
  {
    var field := s[i..i + 4];
    assert s[i] == field[0] && s[i + 1] == field[1] && s[i + 2] == field[2] && s[i + 3] == field[3];
    if GetInt32(s, i) == 0 {
      ZeroValue(field);
    } else if field == [0, 0, 0, 0] {
      ZeroInNetOrder();
      NetRoundTrip(0, s, i);
      assert false;
    }
  }

  /** What a pass has done when there is still as much to read as before: a frame of length zero was found, and
      the buffer was compacted. */
  lemma IdlePass(b: Buf)
    requires b.Valid() && DecodePass(b).More? && DecodePass(b).next.ReadAble() == b.ReadAble()
    ensures var next := DecodePass(b).next; !HarmlessFrom(next.bytes, next.write, next.read)
  {
    hide ScanFrom, HarmlessFrom, MoveRead, DecodePass, GetInt32, Front;
    IdleMove(b);
    var scan := ScanFrom(b.bytes, b.write, b.read);
    FoundIs(b.bytes, b.write, b.read);
    NothingFoundAgain(b, scan.start);
  }

  lemma IdleMove(b: Buf)
    requires b.Valid() && DecodePass(b).More? && DecodePass(b).next.ReadAble() == b.ReadAble()
    ensures var scan := ScanFrom(b.bytes, b.write, b.read); scan.Found? && scan.pkLen == 0
    ensures DecodePass(b).next == Front(b, b.ReadAble(), |b.bytes|)
  {
    hide ScanFrom, ParseFrame, MoveRead;
    var n := ScanFrom(b.bytes, b.write, b.read).pkLen;
    MovedAs(b, n);
  }

  lemma MovedAs(b: Buf, n: int)
    requires b.Valid() && n <= b.ReadAble()
    ensures var r := MoveRead(b, n);
            r != b && r.ReadAble() == b.ReadAble() ==> n == 0 && r == Front(b, b.ReadAble(), |b.bytes|)
  {
  }

  /** What the scanner has seen when it finds a frame. */
  lemma {:induction false} FoundIs(tmp: seq<Byte>, write: nat, i: nat)
    requires write <= |tmp| && ScanFrom(tmp, write, i).Found?
    ensures var f := ScanFrom(tmp, write, i);
            && i <= f.start && f.start + 1 < write && f.start + 5 <= |tmp| && tmp[f.start] == PB_START
            && f.pkLen == GetInt32(tmp, f.start + 1) && tmp[f.end] == PB_END
    decreases write - i
  {
    hide GetInt32;
    if ScanFrom(tmp, write, i) == ScanFrom(tmp, write, i + 1) {
      FoundIs(tmp, write, i + 1);
    }
  }

  lemma {:induction false} DecodeTakesAway(b: Buf)
    requires b.Valid() && !Decode(b).outcome.Rewinds?
    ensures Decode(b).rest.ReadAble() <= b.ReadAble()
    decreases b.ReadAble(), b.read
  {
    hide DecodePass;
    if DecodePass(b).More? {
      DecodeTakesAway(DecodePass(b).next);
    }
  }

  /** Decoding leaves everything that is there alone, and ends, exactly when no byte does harm. */
  lemma LeftAloneIff(b: Buf)
    requires b.Valid()
    ensures Decode(b).outcome == Finished && Decode(b).rest.Contents() == b.Contents()
            <==> HarmlessFrom(b.bytes, b.write, b.read)
    ensures HarmlessFrom(b.bytes, b.write, b.read) ==> Decode(b) == Decoded(Finished, [], b)
  {
    hide DecodePass, HarmlessFrom, Decode;
    QuietPassIff(b);
    DecodeUnfolds(b);
    if DecodePass(b).More? && Decode(b).outcome == Finished {
      PassTakesAway(b);
      assert |Decode(b).rest.Contents()| < |b.Contents()|;
    }
  }

  /** A call that gets past its first pass and ends has taken something away. */
  lemma PassTakesAway(b: Buf)
    requires b.Valid() && DecodePass(b).More? && Decode(b).outcome == Finished
    ensures Decode(b).rest.ReadAble() < b.ReadAble()
  {
    hide DecodePass, HarmlessFrom, Decode;
    DecodeUnfolds(b);
    var next := DecodePass(b).next;
    DecodeTakesAway(next);
    if next.ReadAble() == b.ReadAble() {
      IdlePass(b);
      QuietPassIff(next);
      DecodeUnfolds(next);
      assert next.read == 0 by { IdleMove(b); }
      if DecodePass(next).More? {
        DecodeTakesAway(DecodePass(next).next);
      }
    }
  }

  lemma QuietPassIff(b: Buf)
    requires b.Valid()
    ensures DecodePass(b) == Stop(Finished) <==> HarmlessFrom(b.bytes, b.write, b.read)
  {
    hide ScanFrom, HarmlessFrom, MoveRead, ParseFrame;
    ScanQuietIff(b.bytes, b.write, b.read);
  }

  // A tail behind whole frames.

  /** The buffer once the frames of `ms` at its front have been moved past, one by one. */
  function AfterFrames(b: Buf, ms: seq<Message>): (r: Buf)
    requires b.Valid() && AllSized(ms) && |Stream(ms)| <= b.ReadAble()
    ensures r.Valid()
    decreases |ms|
  {
    if ms == [] then b
    else
      ConsumeMoves(b, FrameLen(ms[0]));
      AfterFrames(MoveRead(b, FrameLen(ms[0])), ms[1..])
  }

  /** Whole frames in front of a tail are decoded, and what is left to decode is what they leave. */
  lemma {:induction false} FramesTaken(b: Buf, ms: seq<Message>, tail: seq<Byte>)
    requires b.Valid() && |b.bytes| <= INT_MAX && AllEncodable(ms) && AllSized(ms)
    requires b.Contents() == Stream(ms) + tail && (tail != [] || RoomToFinish(b, ms))
    ensures |Stream(ms)| <= b.ReadAble()
    ensures var r := AfterFrames(b, ms); var d := Decode(r);
            r.Contents() == tail && |r.bytes| == |b.bytes| && Decode(b) == d.(messages := SealAll(ms) + d.messages)
    decreases |ms|
  {
    hide Frame, Decode, DecodePass, Seal, MoveRead, FrameLen, Encodable, RoomToFinish;
    assert |b.Contents()| == |Stream(ms)| + |tail|;
    if ms == [] {
      assert Stream(ms) + tail == tail && [] + Decode(b).messages == Decode(b).messages;
    } else {
      hide Stream, SealAll;
      OneFrameTaken(b, ms, tail);
      FramesTaken(MoveRead(b, FrameLen(ms[0])), ms[1..], tail);
      PrependAll(Seal(ms[0]), SealAll(ms[1..]), Decode(AfterFrames(b, ms)).messages);
    }
  }

  lemma PrependAll(m: Message, ms: seq<Message>, more: seq<Message>)
    ensures [m] + (ms + more) == ([m] + ms) + more
  {
  }

  lemma OneFrameTaken(b: Buf, ms: seq<Message>, tail: seq<Byte>)
    requires b.Valid() && |b.bytes| <= INT_MAX && AllEncodable(ms) && AllSized(ms) && ms != []
    requires b.Contents() == Stream(ms) + tail && (tail != [] || RoomToFinish(b, ms))
    ensures FrameLen(ms[0]) <= b.ReadAble() && AllEncodable(ms[1..]) && AllSized(ms[1..])
    ensures var next := MoveRead(b, FrameLen(ms[0]));
            && next.Valid() && next.Contents() == Stream(ms[1..]) + tail && |next.bytes| == |b.bytes|
            && (tail != [] || RoomToFinish(next, ms[1..]))
            && Decode(b) == (var d := Decode(next); d.(messages := [Seal(ms[0])] + d.messages))
    ensures SealAll(ms) == [Seal(ms[0])] + SealAll(ms[1..])
  {
    hide Frame, Decode, DecodePass, Seal, MoveRead, FrameLen, RoomToFinish, Encodable, Stream, SealAll;
    assert ms[0] in ms;
    FirstMovedPast(b, ms, tail);
    RestIsEncodable(ms);
    FrameFirst(ms, tail);
    FirstIsDecoded(b, ms[0], Stream(ms[1..]) + tail);
  }

  /** The index moves past the first frame. */
  lemma FirstMovedPast(b: Buf, ms: seq<Message>, tail: seq<Byte>)
    requires b.Valid() && AllSized(ms) && ms != [] && b.Contents() == Stream(ms) + tail
    requires tail != [] || RoomToFinish(b, ms)
    ensures FrameLen(ms[0]) <= b.ReadAble() && b.read + FrameLen(ms[0]) < |b.bytes|
    ensures var next := MoveRead(b, FrameLen(ms[0]));
            && next.Valid() && next.Contents() == Stream(ms[1..]) + tail && |next.bytes| == |b.bytes|
            && (tail != [] || RoomToFinish(next, ms[1..]))
  {
    hide Frame, MoveRead, FrameLen, RoomToFinish, Stream;
    FrameFirst(ms, tail);
    assert [] + Stream(ms) + tail == Stream(ms) + tail && [] + tail == tail;
    AfterPass(b, [], ms, tail);
    FirstDropped(b, Frame(ms[0]), Stream(ms[1..]) + tail);
  }

  lemma FrameFirst(ms: seq<Message>, tail: seq<Byte>)
    requires AllSized(ms) && ms != []
    ensures Stream(ms) + tail == Frame(ms[0]) + (Stream(ms[1..]) + tail)
  {
    hide Frame;
    assert (Frame(ms[0]) + Stream(ms[1..])) + tail == Frame(ms[0]) + (Stream(ms[1..]) + tail);
  }

  lemma RestIsEncodable(ms: seq<Message>)
    requires AllEncodable(ms) && AllSized(ms) && ms != []
    ensures AllEncodable(ms[1..]) && AllSized(ms[1..]) && SealAll(ms) == [Seal(ms[0])] + SealAll(ms[1..])
  {
    hide Encodable, Sized, Seal;
    assert forall m :: m in ms[1..] ==> m in ms;
  }

  lemma FirstIsDecoded(b: Buf, m: Message, rest: seq<Byte>)
    requires b.Valid() && |b.bytes| <= INT_MAX && Encodable(m) && b.Contents() == Frame(m) + rest
    requires FrameLen(m) <= b.ReadAble() && b.read + FrameLen(m) < |b.bytes|
    ensures Decode(b) == (var d := Decode(MoveRead(b, FrameLen(m))); d.(messages := [Seal(m)] + d.messages))
  {
    hide Frame, Decode, DecodePass, Seal, MoveRead, FrameLen, Encodable;
    NoLagHere();
    assert [] + (Frame(m) + rest) == Frame(m) + rest;
    PassTakesFrame(b, [], m, rest);
    DecodeUnfolds(b);
  }

  lemma NoLagHere()
    ensures QuietLag([])
  {
  }

  lemma FirstDropped(b: Buf, f: seq<Byte>, rest: seq<Byte>)
    requires b.Valid() && b.Contents() == f + rest
    ensures |f| <= b.ReadAble()
    ensures b.read + |f| < |b.bytes| ==>
              var next := MoveRead(b, |f|);
              next.Contents() == rest && |next.bytes| == |b.bytes| && next.write <= b.write
  {
    hide MoveRead;
    assert |b.Contents()| == |f| + |rest|;
    ConsumeMoves(b, |f|);
    if b.read + |f| < |b.bytes| {
      AdjustedIndices(b.(read := b.read + |f|));
    }
  }

  /** Once the frames have been moved past, the bytes behind the written ones are zeros if the moves reached a
      third of the vector; else only the read index has changed. */
  lemma {:induction false} UnreadAfter(b: Buf, ms: seq<Message>)
    requires b.Valid() && AllSized(ms) && |Stream(ms)| <= b.ReadAble() && b.read + |Stream(ms)| < |b.bytes|
    ensures var r := AfterFrames(b, ms);
            if ms != [] && b.read + |Stream(ms)| >= |b.bytes| / 3
            then r.bytes[r.write..] == Zeros(|r.bytes| - r.write)
            else r == b.(read := b.read + |Stream(ms)|)
    decreases |ms|
  {
    hide Frame, FrameLen, MoveRead, Zeros, Adjust;
    if ms != [] {
      var f, m := FrameLen(ms[0]), ms[0];
      ConsumeMoves(b, f);
      UnreadMoved(b, f);
      UnreadAfter(MoveRead(b, f), ms[1..]);
    }
  }

  lemma UnreadMoved(b: Buf, n: nat)
    requires b.Valid() && n <= b.ReadAble() && b.read + n < |b.bytes|
    ensures var r := MoveRead(b, n);
            if b.read + n >= |b.bytes| / 3
            then r.read == 0 && |r.bytes| == |b.bytes| && r.bytes[r.write..] == Zeros(|r.bytes| - r.write)
            else r == b.(read := b.read + n)
  {
  }

  /** What it takes: a bare stream needs room to move past its last frame, and a tail no byte that does harm in the
      buffer that the frames leave. */
  predicate Keeps(b: Buf, ms: seq<Message>, tail: seq<Byte>)
    requires b.Valid() && AllSized(ms) && |Stream(ms)| <= b.ReadAble()
  {
    if tail == [] then RoomToFinish(b, ms)
    else var r := AfterFrames(b, ms); HarmlessFrom(r.bytes, r.write, r.read)
  }

  /** A cut stream: all the frames are delivered and an unfinished tail behind them is kept for later exactly then.
      In the buffer that the frames leave, the unread part is zeros if an index move has reached a third of the
      vector, and untouched if not. */
  lemma CutStreamIff(b: Buf, ms: seq<Message>, tail: seq<Byte>)
    requires b.Valid() && |b.bytes| <= INT_MAX && AllEncodable(ms) && AllSized(ms) && b.Contents() == Stream(ms) + tail
    ensures |Stream(ms)| <= b.ReadAble()
    ensures var d := Decode(b);
            d.outcome == Finished && d.messages == SealAll(ms) && d.rest.Contents() == tail <==> Keeps(b, ms, tail)
    ensures Keeps(b, ms, tail) ==> Decode(b).rest == AfterFrames(b, ms) && |AfterFrames(b, ms).bytes| == |b.bytes|
    ensures tail != [] ==>
              var r := AfterFrames(b, ms);
              && r.Contents() == tail && |r.bytes| == |b.bytes|
              && (if ms != [] && b.read + |Stream(ms)| >= |b.bytes| / 3
                  then r.bytes[r.write..] == Zeros(|r.bytes| - r.write)
                  else r == b.(read := b.read + |Stream(ms)|))
  {
    hide Frame, Decode, Seal, Encodable, HarmlessFrom, AfterFrames, Stream, SealAll, RoomToFinish;
    assert |b.Contents()| == |Stream(ms)| + |tail|;
    assert SealAll(ms) + [] == SealAll(ms);
    if tail != [] || RoomToFinish(b, ms) {
      FramesTaken(b, ms, tail);
      LeftAloneIff(AfterFrames(b, ms));
      if tail == [] {
        NothingIsHarmless(AfterFrames(b, ms));
      } else {
        UnreadAfter(b, ms);
      }
    } else {
      assert Stream(ms) + tail == [] + Stream(ms) + [];
      NoLag(ms);
      NothingIsQuiet(|b.bytes|);
      DecodeStream(b, [], ms, []);
    }
  }

  lemma NothingIsHarmless(b: Buf)
    requires b.Valid() && b.Contents() == []
    ensures HarmlessFrom(b.bytes, b.write, b.read)
  {
    assert |b.Contents()| == 0;
  }

  lemma NothingIsQuiet(capacity: nat)
    ensures QuietTail([], capacity)
  {
  }

  /** A cut that does harm: two to four bytes of a frame of under 256 bytes behind a whole frame, with zeros in the
      part of the vector that is not written (which compacting puts there), read as a frame of length zero. */
  lemma CutInsideLengthFails(b: Buf, m: Message, n: nat)
    requires b.Valid() && |b.bytes| <= INT_MAX && Encodable(m) && 1 <= n <= 3
    requires b.Contents() == Frame(m) + ([PB_START] + Zeros(n))
    requires b.read + FrameLen(m) < |b.bytes| / 3 ==>
               b.write + 4 <= |b.bytes| && b.bytes[b.write..b.write + 4] == Zeros(4)
    ensures Decode(b).outcome == if b.read + FrameLen(m) < |b.bytes| / 3 then Diverges else Undefined
    ensures Decode(b).messages == [Seal(m)]
  {
    hide *;
    EncodableIsSized(m);
    var f, tail := Frame(m), [PB_START] + Zeros(n);
    assert |tail| == 1 + n;
    FirstIsTaken(b, m, tail);
    FrameEnd(m);
    CutStops(b, f, tail);
    OneFrameThenStop(b, m, if b.read + |f| < |b.bytes| / 3 then Diverges else Undefined);
  }

  lemma FirstIsTaken(b: Buf, m: Message, tail: seq<Byte>)
    requires b.Valid() && |b.bytes| <= INT_MAX && Encodable(m) && b.Contents() == Frame(m) + tail && tail != []
    ensures FrameLen(m) < b.ReadAble() && DecodePass(b) == More([Seal(m)], MoveRead(b, FrameLen(m)))
  {
    hide Frame, Encodable, Seal, DecodePass, MoveRead, FrameLen;
    assert [] + (Frame(m) + tail) == Frame(m) + tail;
    NoLagHere();
    PassTakesFrame(b, [], m, tail);
    assert |b.Contents()| == FrameLen(m) + |tail|;
  }

  lemma CutStops(b: Buf, f: seq<Byte>, tail: seq<Byte>)
    requires b.Valid() && |b.bytes| <= INT_MAX && |f| < b.ReadAble()
    requires b.Contents() == f + tail && |f| >= 5 && f[|f| - 5..] == [0, 0, 0, 1, PB_END]
    requires 2 <= |tail| <= 4 && tail == [PB_START] + Zeros(|tail| - 1)
    requires b.read + |f| < |b.bytes| / 3 ==> b.write + 4 <= |b.bytes| && b.bytes[b.write..b.write + 4] == Zeros(4)
    ensures DecodePass(MoveRead(b, |f|)) == Stop(if b.read + |f| < |b.bytes| / 3 then Diverges else Undefined)
  {
    hide MoveRead, DecodePass, Zeros;
    CutReadsAsNothing(b, f, tail);
    StartOfNothing(MoveRead(b, |f|));
  }

  lemma CutReadsAsNothing(b: Buf, f: seq<Byte>, tail: seq<Byte>)
    requires b.Valid() && b.Contents() == f + tail && |f| >= 5 && f[|f| - 5..] == [0, 0, 0, 1, PB_END]
    requires 2 <= |tail| <= 4 && tail == [PB_START] + Zeros(|tail| - 1)
    requires b.read + |f| < |b.bytes| / 3 ==> b.write + 4 <= |b.bytes| && b.bytes[b.write..b.write + 4] == Zeros(4)
    ensures var n := MoveRead(b, |f|);
            && n.Valid() && n.ReadAble() == |tail| && n.read + 5 <= |n.bytes| == |b.bytes|
            && n.bytes[n.read] == PB_START
            && n.bytes[n.read + 1..n.read + 5] == [0, 0, 0, 0]
            && (n.read > 0 ==> n.read < |n.bytes| / 3 && n.bytes[n.read - 1] == PB_END)
            && (n.read > 0 <==> b.read + |f| < |b.bytes| / 3)
  {
    hide MoveRead;
    assert |b.Contents()| == |f| + |tail|;
    UnreadMoved(b, |f|);
    FirstDropped(b, f, tail);
    if b.read + |f| < |b.bytes| / 3 {
      StaleLength(b, f, tail, b.read + |f|);
    } else {
      ZerosBehind(MoveRead(b, |f|), tail);
    }
  }

  lemma ZerosBehind(b: Buf, tail: seq<Byte>)
    requires b.Valid() && b.read == 0 && b.Contents() == tail && b.bytes[b.write..] == Zeros(|b.bytes| - b.write)
    requires 2 <= |tail| <= 4 && tail == [PB_START] + Zeros(|tail| - 1) && |b.bytes| >= 5
    ensures b.bytes[0] == PB_START && b.bytes[1..5] == [0, 0, 0, 0]
  {
    var unread := b.bytes[b.write..];
    assert forall p :: 0 <= p < b.write ==> b.bytes[p] == tail[p];
    assert forall p :: b.write <= p < |b.bytes| ==> b.bytes[p] == unread[p - b.write];
    FourZeros(b.bytes, 0, b.write, tail);
  }

  /** The first bytes of a tail and zeros behind it. */
  lemma FourZeros(s: seq<Byte>, r: nat, write: nat, tail: seq<Byte>)
    requires 2 <= |tail| <= 4 && tail == [PB_START] + Zeros(|tail| - 1) && r + |tail| == write && r + 5 <= |s|
    requires forall p :: r <= p < write ==> s[p] == tail[p - r]
    requires forall p :: write <= p < r + 5 ==> s[p] == 0
    ensures s[r] == PB_START && s[r + 1..r + 5] == [0, 0, 0, 0]
  {
    assert s[r] == tail[0] == PB_START;
    forall p | r < p < r + 5 ensures s[p] == 0 {
      if p < write {
        assert tail[p - r] == 0;
      }
    }
    assert s[r + 1] == 0 && s[r + 2] == 0 && s[r + 3] == 0 && s[r + 4] == 0;
  }

  lemma StaleLength(b: Buf, f: seq<Byte>, tail: seq<Byte>, r: nat)
    requires b.Valid() && b.Contents() == f + tail && r == b.read + |f| && |f| >= 5
    requires f[|f| - 5..] == [0, 0, 0, 1, PB_END]
    requires 2 <= |tail| <= 4 && tail == [PB_START] + Zeros(|tail| - 1)
    requires b.write + 4 <= |b.bytes| && b.bytes[b.write..b.write + 4] == Zeros(4)
    ensures b.bytes[r - 1] == PB_END && b.bytes[r] == PB_START && b.bytes[r + 1..r + 5] == [0, 0, 0, 0]
  {
    var c, unread, end := b.Contents(), b.bytes[b.write..b.write + 4], f[|f| - 5..];
    assert |c| == |f| + |tail|;
    assert forall i :: 0 <= i < |c| ==> c[i] == b.bytes[b.read + i];
    assert end[4] == f[|f| - 1] == c[|f| - 1];
    assert forall p :: r <= p < b.write ==> b.bytes[p] == c[p - b.read] == tail[p - r];
    assert forall p :: b.write <= p < b.write + 4 ==> b.bytes[p] == unread[p - b.write];
    FourZeros(b.bytes, r, b.write, tail);
  }

  // The same of the whole call, which follows the loop when it moves back.

  /** Every index move leaves the read index at zero or below a third of the vector. */
  predicate ReadIsLow(b: Buf) {
    b.read == 0 || b.read < |b.bytes| / 3
  }

  lemma {:induction false} FramesReadLow(b: Buf, ms: seq<Message>)
    requires b.Valid() && AllSized(ms) && |Stream(ms)| <= b.ReadAble() && ReadIsLow(b)
    ensures ReadIsLow(AfterFrames(b, ms))
    decreases |ms|
  {
    hide Frame, FrameLen, MoveRead, ReadIsLow;
    if ms != [] {
      var f := FrameLen(ms[0]);
      ConsumeMoves(b, f);
      MoveReadsLow(b, f);
      FramesReadLow(MoveRead(b, f), ms[1..]);
    }
  }

  lemma MoveReadsLow(b: Buf, n: nat)
    requires b.Valid() && n <= b.ReadAble() && ReadIsLow(b)
    ensures ReadIsLow(MoveRead(b, n))
  {
  }

  /** What is left of `b` in `c`: all of it but the place of the read index, or less than there was to read. */
  predicate Remains(b: Buf, c: Buf) {
    |c.bytes| == |b.bytes| && ((c.bytes == b.bytes && c.write == b.write) || c.write < b.ReadAble())
  }

  lemma PassRemains(b: Buf, c: Buf)
    requires b.Valid() && c.Valid() && ReadIsLow(b) && Remains(b, c) && LoopBody(c).More?
    ensures Remains(b, LoopBody(c).next)
  {
    hide LoopBody;
    PassMoves(c);
  }

  lemma {:induction false} StopRemains(b: Buf, c: Buf, n: nat)
    requires b.Valid() && c.Valid() && ReadIsLow(b) && Remains(b, c) && LoopFor(c, n).Stopped?
    ensures var l := LoopFor(c, n); l.rest.Valid() && Remains(b, l.rest) && LoopBody(l.rest) == Stop(l.outcome)
    decreases n
  {
    hide LoopBody, Remains, ReadIsLow;
    if LoopBody(c).More? {
      PassRemains(b, c);
      StopRemains(b, LoopBody(c).next, n - 1);
    }
  }

  /** The call leaves everything there, and ends, exactly when no byte does harm. */
  lemma CallLeavesAloneIff(b: Buf)
    requires b.Valid() && ReadIsLow(b)
    ensures DecodeAll(b).outcome == Finished && DecodeAll(b).rest.Contents() == b.Contents()
            <==> HarmlessFrom(b.bytes, b.write, b.read)
  {
    hide Decode, HarmlessFrom, LoopBody, LoopFor, DecodeAll, ReadIsLow;
    LeftAloneIff(b);
    if Decode(b).outcome.Rewinds? && DecodeAll(b).outcome == Finished {
      var d := DecodeAll(b);
      DecodeAllIsTheLoop(b);
      var k: nat :| LoopFor(b, k) == Stopped(d.outcome, d.messages, d.rest);
      StopRemains(b, b, k);
      if d.rest.Contents() == b.Contents() {
        SameRemains(b, d.rest);
        StoppedPass(b);
        DecodeUnfolds(b);
        assert false;
      }
    }
  }

  lemma SameRemains(b: Buf, c: Buf)
    requires b.Valid() && c.Valid() && Remains(b, c) && c.Contents() == b.Contents()
    ensures c == b
  {
    assert |c.Contents()| == |b.Contents()|;
  }

  lemma StoppedPass(b: Buf)
    requires b.Valid() && LoopBody(b).Stop?
    ensures DecodePass(b) == LoopBody(b)
  {
    hide LoopBody;
  }

  /** So for a cut stream as well. */
  lemma CallKeepsIff(b: Buf, ms: seq<Message>, tail: seq<Byte>)
    requires b.Valid() && ReadIsLow(b) && |b.bytes| <= INT_MAX && AllEncodable(ms) && AllSized(ms)
    requires b.Contents() == Stream(ms) + tail
    ensures |Stream(ms)| <= b.ReadAble()
    ensures var d := DecodeAll(b);
            d.outcome == Finished && d.messages == SealAll(ms) && d.rest.Contents() == tail <==> Keeps(b, ms, tail)
    ensures Keeps(b, ms, tail) ==> DecodeAll(b).rest == AfterFrames(b, ms) && ReadIsLow(AfterFrames(b, ms))
  {
    hide Decode, DecodeAll, Frame, Seal, Encodable, HarmlessFrom, AfterFrames, Stream, SealAll, RoomToFinish, ReadIsLow;
    CutStreamIff(b, ms, tail);
    FramesReadLow(b, ms);
    if Decode(b).outcome.Rewinds? {
      if tail != [] || RoomToFinish(b, ms) {
        FramesTaken(b, ms, tail);
        CallAfterFrames(b, AfterFrames(b, ms), SealAll(ms));
        CallLeavesAloneIff(AfterFrames(b, ms));
        LeftAloneIff(AfterFrames(b, ms));
      } else {
        assert Stream(ms) + tail == [] + Stream(ms) + [];
        NoLag(ms);
        NothingIsQuiet(|b.bytes|);
        DecodeStream(b, [], ms, []);
      }
    }
  }

  lemma CallAfterFrames(b: Buf, r: Buf, got: seq<Message>)
    requires b.Valid() && r.Valid() && Decode(b) == Decode(r).(messages := got + Decode(r).messages)
    ensures DecodeAll(b) == DecodeAll(r).(messages := got + DecodeAll(r).messages)
  {
    hide Decode, LoopFor;
  }
}
