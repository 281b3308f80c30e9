/** Streams that arrive in pieces: decoding after every chunk. */
module Chunks {
  import opened Bytes
  import opened Numerals
  import opened TcpBuffers
  import opened TinyPB
  import opened DecodeLoop
  import opened FrameStreams
  import opened Delivery
  import opened Cuts

  // Whole frames in the front part of a stream.

  /** The number of whole frames in the first `n` bytes of the stream of `ms`. */
  function Whole(ms: seq<Message>, n: nat): (k: nat)
    requires AllSized(ms)
    ensures k <= |ms|
    decreases |ms|
  {
    if ms == [] || FrameLen(ms[0]) > n then 0 else 1 + Whole(ms[1..], n - FrameLen(ms[0]))
  }

  /** What stays pending once `q`, a front part of the stream of `ms`, has been decoded. */
  function Pending(ms: seq<Message>, q: seq<Byte>): seq<Byte>
    requires AllSized(ms)
    decreases |ms|
  {
    if ms == [] || FrameLen(ms[0]) > |q| then q else Pending(ms[1..], q[FrameLen(ms[0])..])
  }

  lemma {:induction false} WholeFrames(ms: seq<Message>, q: seq<Byte>, r: seq<Byte>)
    requires AllSized(ms) && q + r == Stream(ms)
    ensures var k, t := Whole(ms, |q|), Pending(ms, q);
            q == Stream(ms[..k]) + t && t + r == Stream(ms[k..]) && Whole(ms[k..], |t|) == 0
    decreases |ms|
  {
    hide Frame, FrameLen, Sized;
    if ms == [] || FrameLen(ms[0]) > |q| {
      assert ms[..0] == [] && ms[0..] == ms;
    } else {
      var f := Frame(ms[0]);
      FrontOfBoth(q, r, f, Stream(ms[1..]));
      WholeFrames(ms[1..], q[|f|..], r);
      var k := Whole(ms[1..], |q| - |f|);
      OneFrameMore(ms, k);
      hide Stream;
      FrontRejoined(q, f, Stream(ms[1..][..k]), Pending(ms[1..], q[|f|..]));
    }
  }

  lemma OneFrameMore(ms: seq<Message>, k: nat)
    requires AllSized(ms) && ms != [] && k <= |ms[1..]|
    ensures ms[k + 1..] == ms[1..][k..] && AllSized(ms[..k + 1]) && AllSized(ms[1..][..k])
    ensures Stream(ms[..k + 1]) == Frame(ms[0]) + Stream(ms[1..][..k])
  {
    hide Frame, Sized;
    assert ms[..k + 1][1..] == ms[1..][..k];
  }

  lemma FrontOfBoth(q: seq<Byte>, r: seq<Byte>, f: seq<Byte>, rest: seq<Byte>)
    requires q + r == f + rest && |f| <= |q|
    ensures q[..|f|] == f && q[|f|..] + r == rest
  {
    assert q[..|f|] == (q + r)[..|f|];
    assert q[|f|..] + r == (q + r)[|f|..];
  }

  lemma FrontRejoined(q: seq<Byte>, f: seq<Byte>, a: seq<Byte>, b: seq<Byte>)
    requires |f| <= |q| && q[..|f|] == f && q[|f|..] == a + b
    ensures q == (f + a) + b
  {
    assert q == f + (a + b);
  }

  // Chunk after chunk.

  /** The two ways bytes come into the buffer: received behind the write index, or written. */
  type Chunk = op: Op | op.Receive? || op.Write? witness Write([])

  function Concat(ops: seq<Chunk>): seq<Byte> {
    if ops == [] then [] else ops[0].data + Concat(ops[1..])
  }

  /** Chunk after chunk is taken in and decoded, as long as decoding ends. */
  function Deliver(b: Buf, ops: seq<Chunk>): (d: Decoded)
    requires b.Valid() && Arrive(b, ops)
    ensures d.rest.Valid()
    decreases |ops|
  {
    if ops == [] then Decoded(Finished, [], b)
    else
      var d := DecodeAll(Step(b, ops[0]));
      if !d.outcome.Finished? then d
      else
        var e := Deliver(d.rest, ops[1..]);
        e.(messages := d.messages + e.messages)
  }

  /** What is received fits behind what is there. */
  predicate Arrive(b: Buf, ops: seq<Chunk>)
    requires b.Valid()
    decreases |ops|
  {
    ops == [] ||
    (Legal(b, ops[0]) &&
     var d := DecodeAll(Step(b, ops[0]));
     (d.outcome.Finished? ==> Arrive(d.rest, ops[1..])))
  }

  /** The whole delivery as it should go: every chunk is taken in whole, decoding it ends with the frames that are
      complete by then, and the rest stays pending. */
  predicate Delivered(b: Buf, ms: seq<Message>, ops: seq<Chunk>)
    requires b.Valid() && AllSized(ms) && b.Contents() + Concat(ops) == Stream(ms)
    decreases |ops|
  {
    ops == [] ||
    (Legal(b, ops[0]) &&
     var a, q := Step(b, ops[0]), b.Contents() + ops[0].data;
     var k, t := Whole(ms, |q|), Pending(ms, q);
     var d := DecodeAll(a);
     ChunkLeft(ms, b.Contents(), ops);
     && |a.bytes| <= INT_MAX && a.Contents() == q
     && d.outcome == Finished && d.messages == SealAll(ms[..k]) && d.rest.Contents() == t
     && Delivered(d.rest, ms[k..], ops[1..]))
  }

  /** The same foretold without decoding: an index move is not refused, and then what the chunk brings is decoded
      and kept. */
  predicate Survives(b: Buf, ms: seq<Message>, ops: seq<Chunk>)
    requires b.Valid() && AllSized(ms) && b.Contents() + Concat(ops) == Stream(ms)
    decreases |ops|
  {
    ops == [] ||
    (Legal(b, ops[0]) && (Accepted(b, ops[0]) || ops[0].data == []) &&
     var a, q := Step(b, ops[0]), b.Contents() + ops[0].data;
     var k, t := Whole(ms, |q|), Pending(ms, q);
     ChunkLeft(ms, b.Contents(), ops);
     ChunkArrives(b, ops[0]);
     && |a.bytes| <= INT_MAX && Keeps(a, ms[..k], t)
     && var r := AfterFrames(a, ms[..k]);
        r.Contents() == t && Survives(r, ms[k..], ops[1..]))
  }

  /** The stream that a chunk leaves to come. */
  lemma ChunkLeft(ms: seq<Message>, pending: seq<Byte>, ops: seq<Chunk>)
    requires AllSized(ms) && ops != [] && pending + Concat(ops) == Stream(ms)
    ensures var q := pending + ops[0].data;
            var k, t := Whole(ms, |q|), Pending(ms, q);
            && AllSized(ms[..k]) && AllSized(ms[k..])
            && q == Stream(ms[..k]) + t && |Stream(ms[..k])| <= |q| && t + Concat(ops[1..]) == Stream(ms[k..])
            && Whole(ms[k..], |t|) == 0
  {
    hide Frame, Stream, Whole, Pending, Sized;
    var q := pending + ops[0].data;
    assert pending + Concat(ops) == q + Concat(ops[1..]);
    WholeFrames(ms, q, Concat(ops[1..]));
    assert |Stream(ms[..Whole(ms, |q|)]) + Pending(ms, q)|
        == |Stream(ms[..Whole(ms, |q|)])| + |Pending(ms, q)|;
  }

  lemma ChunkArrives(b: Buf, op: Chunk)
    requires b.Valid() && Legal(b, op)
    ensures Step(b, op).Contents() == b.Contents() + op.data <==> Accepted(b, op) || op.data == []
  {
    hide Step, Accepted;
    StepIsFifo(b, op);
  }

  lemma ChunkReadsLow(b: Buf, op: Chunk)
    requires b.Valid() && Legal(b, op) && ReadIsLow(b)
    ensures ReadIsLow(Step(b, op))
  {
    hide Overwrite;
  }

  /** However a stream is cut into chunks, by reads or by writes, it is delivered as it should be exactly when every
      cut survives. */
  lemma {:induction false} DeliveredIff(b: Buf, ms: seq<Message>, ops: seq<Chunk>)
    requires b.Valid() && ReadIsLow(b) && AllEncodable(ms) && AllSized(ms)
    requires b.Contents() + Concat(ops) == Stream(ms)
    ensures Delivered(b, ms, ops) <==> Survives(b, ms, ops)
    decreases |ops|
  {
    hide Frame, Encodable, Step, DecodeAll, Seal, Legal, Accepted, Keeps, AfterFrames, Whole, Pending, Stream, SealAll;
    hide ReadIsLow;
    if ops != [] && Legal(b, ops[0]) {
      var a, q := Step(b, ops[0]), b.Contents() + ops[0].data;
      var k, t := Whole(ms, |q|), Pending(ms, q);
      ChunkLeft(ms, b.Contents(), ops);
      ChunkArrives(b, ops[0]);
      assert forall m :: m in ms[..k] ==> m in ms;
      assert forall m :: m in ms[k..] ==> m in ms;
      if |a.bytes| <= INT_MAX && a.Contents() == q {
        ChunkReadsLow(b, ops[0]);
        CallKeepsIff(a, ms[..k], t);
        if Keeps(a, ms[..k], t) {
          DeliveredIff(AfterFrames(a, ms[..k]), ms[k..], ops[1..]);
        }
      }
    }
  }

  /** A delivery as it should be brings all the messages and drains the buffer. */
  lemma {:induction false} DeliveredBringsAll(b: Buf, ms: seq<Message>, ops: seq<Chunk>)
    requires b.Valid() && AllSized(ms) && b.Contents() + Concat(ops) == Stream(ms)
    requires Whole(ms, b.ReadAble()) == 0 && Delivered(b, ms, ops)
    ensures Arrive(b, ops)
    ensures var d := Deliver(b, ops);
            d.outcome == Finished && d.messages == SealAll(ms) && d.rest.ReadAble() == 0
    decreases |ops|
  {
    hide Frame, Step, DecodeAll, Seal, Legal, Pending, Sized, Delivered, Whole, SealAll, Stream;
    if ops == [] {
      NothingToCome(b, ms, ops);
    } else {
      NextDelivered(b, ms, ops);
      var d := DecodeAll(Step(b, ops[0]));
      DeliveredBringsAll(d.rest, ms[Whole(ms, b.ReadAble() + |ops[0].data|)..], ops[1..]);
    }
  }

  lemma NothingToCome(b: Buf, ms: seq<Message>, ops: seq<Chunk>)
    requires b.Valid() && AllSized(ms) && ops == [] && b.Contents() + Concat(ops) == Stream(ms)
    requires Whole(ms, b.ReadAble()) == 0
    ensures SealAll(ms) == [] && b.ReadAble() == 0
  {
    hide Frame, Seal, Whole, Stream;
    assert b.Contents() + [] == b.Contents() && |b.Contents()| == b.ReadAble();
    NothingWhole(ms);
  }

  lemma NextDelivered(b: Buf, ms: seq<Message>, ops: seq<Chunk>)
    requires b.Valid() && AllSized(ms) && ops != [] && b.Contents() + Concat(ops) == Stream(ms)
    requires Delivered(b, ms, ops)
    ensures Legal(b, ops[0])
    ensures var k, d := Whole(ms, b.ReadAble() + |ops[0].data|), DecodeAll(Step(b, ops[0]));
            && d.outcome == Finished && AllSized(ms[k..])
            && d.rest.Contents() + Concat(ops[1..]) == Stream(ms[k..]) && Whole(ms[k..], d.rest.ReadAble()) == 0
            && Delivered(d.rest, ms[k..], ops[1..]) && SealAll(ms) == d.messages + SealAll(ms[k..])
  {
    hide Frame, Step, DecodeAll, Seal, Legal, Pending, AllSized, Whole, Stream, SealAll, Concat;
    var q := b.Contents() + ops[0].data;
    ReadsContents(b);
    assert |q| == b.ReadAble() + |ops[0].data|;
    ChunkLeft(ms, b.Contents(), ops);
    var k, rest := Whole(ms, |q|), DecodeAll(Step(b, ops[0])).rest;
    ReadsContents(rest);
    AllSealed(ms, k);
  }

  lemma ReadsContents(b: Buf)
    requires b.Valid()
    ensures |b.Contents()| == b.ReadAble()
  {
  }

  lemma AllSealed(ms: seq<Message>, k: nat)
    requires k <= |ms|
    ensures SealAll(ms) == SealAll(ms[..k]) + SealAll(ms[k..])
  {
    hide Seal;
  }

  /** A stream without a whole frame is the empty one. */
  lemma NothingWhole(ms: seq<Message>)
    requires AllSized(ms) && Whole(ms, |Stream(ms)|) == 0
    ensures ms == [] && Stream(ms) == []
  {
    hide Frame;
  }

  lemma DecodeChunk(b: Buf, ms: seq<Message>, tail: seq<Byte>)
    requires b.Valid() && |b.bytes| <= INT_MAX && b.write < |b.bytes| && AllEncodable(ms) && AllSized(ms)
    requires b.Contents() == Stream(ms) + tail && QuietTail(tail, |b.bytes|)
    ensures var d := Decode(b);
            d.outcome == Finished && d.messages == SealAll(ms) && |d.rest.bytes| == |b.bytes|
            && d.rest.Contents() == tail
  {
    hide Frame, Encodable, Decode, QuietTail;
    assert [] + Stream(ms) + tail == Stream(ms) + tail;
    NoLag(ms);
    DecodeStream(b, [], ms, tail);
    assert [] + tail == tail;
  }

  /** The shape of a harmless cut: nothing, a lone start byte, or a whole length field and no second start byte. */
  predicate WellCut(t: seq<Byte>) {
    |t| <= 1 || (|t| >= 5 && NoStart(t[1..]))
  }

  /** Such a cut leaves a quiet tail of any frame. */
  lemma WellCutIsQuiet(m: Message, n: nat, capacity: nat)
    requires Sized(m) && n < FrameLen(m) && FrameLen(m) + capacity <= INT_MAX && WellCut(Frame(m)[..n])
    ensures QuietTail(Frame(m)[..n], capacity)
  {
    hide Frame;
    var f := Frame(m);
    var t := f[..n];
    if n >= 5 {
      assert At(f, 0, f);
      FrameLaidOut(f, 0, m);
      assert t[1..5] == f[1..5];
      assert EndOf(t, 0) == FrameLen(m) - 1;
      assert forall i :: 1 <= i < n ==> t[i] == t[1..][i - 1];
    }
  }

  lemma PendingIsFront(ms: seq<Message>, t: seq<Byte>, after: seq<Byte>)
    requires AllSized(ms) && ms != [] && t + after == Stream(ms) && Whole(ms, |t|) == 0
    ensures |t| < FrameLen(ms[0]) && t == Frame(ms[0])[..|t|]
  {
    hide Frame, FrameLen, Sized;
    assert t == (Frame(ms[0]) + Stream(ms[1..]))[..|t|];
  }

  // Cuttings judged by their bytes alone.

  /** Every cut has the shape of a harmless one, and what is pending and a new chunk leave a third of the capacity
      free; a chunk that is written, and so may grow the vector, need not if something stays pending. */
  predicate GoodCutting(ms: seq<Message>, pending: seq<Byte>, ops: seq<Chunk>, capacity: nat)
    requires AllSized(ms)
    decreases |ops|
  {
    ops == [] ||
    (var q := pending + ops[0].data;
     var t := Pending(ms, q);
     && WellCut(t) && (|q| + capacity / 3 < capacity || (ops[0].Write? && t != []))
     && GoodCutting(ms[Whole(ms, |q|)..], t, ops[1..], capacity))
  }

  /** A good chunk is taken in; the vector stays within its bounds, and where a third of the capacity was free there
      is room behind the chunk. */
  lemma ChunkComesIn(b: Buf, op: Chunk, capacity: nat, most: nat)
    requires b.Valid() && ReadIsLow(b) && capacity <= |b.bytes| <= most && 3 * |b.Contents() + op.data| <= most
    requires op.Write? || |b.Contents() + op.data| + capacity / 3 < capacity
    ensures Legal(b, op) && (Accepted(b, op) || op.data == [])
    ensures var a := Step(b, op);
            && ReadIsLow(a) && capacity <= |a.bytes| <= most
            && (|b.Contents() + op.data| + capacity / 3 < capacity ==> a.write < |a.bytes|)
  {
    hide Overwrite, Resize;
    assert |b.Contents() + op.data| == b.ReadAble() + |op.data|;
    match op
    case Receive(data) => ReceivedLow(b, data);
    case Write(data) => WrittenLow(b, data, capacity, most);
  }

  lemma ReceivedLow(b: Buf, data: seq<Byte>)
    requires b.Valid() && ReadIsLow(b) && b.ReadAble() + |data| + |b.bytes| / 3 < |b.bytes|
    ensures b.write + |data| < |b.bytes|
    ensures var a := MoveWrite(Overwrite(b, data), |data|);
            ReadIsLow(a) && |a.bytes| == |b.bytes| && a.write < |a.bytes|
  {
  }

  lemma WrittenLow(b: Buf, data: seq<Byte>, capacity: nat, most: nat)
    requires b.Valid() && ReadIsLow(b) && capacity <= |b.bytes| <= most && 3 * (b.ReadAble() + |data|) <= most
    ensures var a := Append(b, data);
            && ReadIsLow(a) && capacity <= |a.bytes| <= most
            && (b.ReadAble() + |data| + capacity / 3 < capacity ==> a.write < |a.bytes|)
  {
  }

  /** What is quiet does no harm. */
  lemma QuietIsHarmless(b: Buf)
    requires b.Valid() && |b.bytes| <= INT_MAX && QuietTail(b.Contents(), |b.bytes|)
    ensures HarmlessFrom(b.bytes, b.write, b.read)
  {
    hide QuietTail, DecodePass, HarmlessFrom;
    assert [] + b.Contents() == b.Contents();
    NoLagHere();
    PassOnTail(b, [], b.Contents());
    QuietPassIff(b);
  }

  /** What stays pending is the front of the next frame. */
  lemma PendingIsQuiet(ms: seq<Message>, q: seq<Byte>, after: seq<Byte>, capacity: nat)
    requires AllSized(ms) && q + after == Stream(ms) && WellCut(Pending(ms, q))
    requires forall m :: m in ms ==> FrameLen(m) + capacity <= INT_MAX
    ensures QuietTail(Pending(ms, q), capacity)
  {
    hide Frame, FrameLen, QuietTail, WellCut, Pending, Sized;
    WholeFrames(ms, q, after);
    var left, t := ms[Whole(ms, |q|)..], Pending(ms, q);
    assert left == [] ==> Stream(left) == [];
    hide Stream;
    if left == [] {
      assert |t + after| == |t| + |after|;
      NothingIsQuiet(capacity);
    } else {
      assert left[0] in ms;
      PendingIsFront(left, t, after);
      WellCutIsQuiet(left[0], |t|, capacity);
    }
  }

  /** A good chunk survives. */
  lemma GoodIsKept(a: Buf, ms: seq<Message>, q: seq<Byte>, after: seq<Byte>)
    requires a.Valid() && |a.bytes| <= INT_MAX && a.Contents() == q && AllEncodable(ms) && AllSized(ms)
    requires q + after == Stream(ms) && WellCut(Pending(ms, q))
    requires forall m :: m in ms ==> FrameLen(m) + |a.bytes| <= INT_MAX
    requires Pending(ms, q) == [] ==> a.write < |a.bytes|
    ensures var front, t := ms[..Whole(ms, |q|)], Pending(ms, q);
            && |Stream(front)| <= a.ReadAble() && Keeps(a, front, t) && AfterFrames(a, front).Contents() == t
            && |AfterFrames(a, front).bytes| == |a.bytes|
  {
    hide Frame, FrameLen, Encodable, QuietTail, WellCut, Pending, Whole, Stream, Sized, HarmlessFrom, AfterFrames;
    var front, t := ms[..Whole(ms, |q|)], Pending(ms, q);
    assert forall m :: m in front ==> m in ms;
    WholeFrames(ms, q, after);
    CutStreamIff(a, front, t);
    if t != [] {
      PendingIsQuiet(ms, q, after, |a.bytes|);
      QuietIsHarmless(AfterFrames(a, front));
    }
  }

  lemma {:induction false} GoodSurvives(b: Buf, ms: seq<Message>, ops: seq<Chunk>, capacity: nat, most: nat)
    requires b.Valid() && ReadIsLow(b) && capacity <= |b.bytes| <= most <= INT_MAX
    requires AllEncodable(ms) && AllSized(ms) && b.Contents() + Concat(ops) == Stream(ms)
    requires 3 * |Stream(ms)| <= most && forall m :: m in ms ==> FrameLen(m) + most <= INT_MAX
    requires GoodCutting(ms, b.Contents(), ops, capacity)
    ensures Survives(b, ms, ops)
    decreases |ops|
  {
    hide Frame, FrameLen, Encodable, Step, Seal, Legal, Accepted, Keeps, AfterFrames, Whole, Pending, Stream, Sized;
    hide WellCut, ReadIsLow;
    if ops != [] {
      ChunkLeft(ms, b.Contents(), ops);
      GoodChunk(b, ms, ops, capacity, most);
      var k := Whole(ms, |b.Contents() + ops[0].data|);
      GoodSurvives(AfterFrames(Step(b, ops[0]), ms[..k]), ms[k..], ops[1..], capacity, most);
    }
  }

  lemma GoodChunk(b: Buf, ms: seq<Message>, ops: seq<Chunk>, capacity: nat, most: nat)
    requires b.Valid() && ReadIsLow(b) && capacity <= |b.bytes| <= most <= INT_MAX && ops != []
    requires AllEncodable(ms) && AllSized(ms) && b.Contents() + Concat(ops) == Stream(ms)
    requires 3 * |Stream(ms)| <= most && forall m :: m in ms ==> FrameLen(m) + most <= INT_MAX
    requires GoodCutting(ms, b.Contents(), ops, capacity)
    ensures Legal(b, ops[0]) && (Accepted(b, ops[0]) || ops[0].data == [])
    ensures var a, q := Step(b, ops[0]), b.Contents() + ops[0].data;
            var k, t := Whole(ms, |q|), Pending(ms, q);
            && a.Contents() == q && |a.bytes| <= INT_MAX && AllSized(ms[..k]) && |Stream(ms[..k])| <= a.ReadAble()
            && AllSized(ms[k..]) && AllEncodable(ms[k..])
            && var r := AfterFrames(a, ms[..k]);
               && Keeps(a, ms[..k], t) && r.Contents() == t && ReadIsLow(r) && capacity <= |r.bytes| <= most
               && 3 * |Stream(ms[k..])| <= most && (forall m :: m in ms[k..] ==> FrameLen(m) + most <= INT_MAX)
               && GoodCutting(ms[k..], t, ops[1..], capacity)
  {
    hide Frame, FrameLen, Encodable, Step, Seal, Legal, Accepted, Keeps, AfterFrames, Whole, Pending, Stream, Sized;
    hide WellCut, ReadIsLow;
    var q := b.Contents() + ops[0].data;
    var k, t := Whole(ms, |q|), Pending(ms, q);
    ChunkLeft(ms, b.Contents(), ops);
    LessToCome(ms, b.Contents(), ops, k, t);
    ChunkComesIn(b, ops[0], capacity, most);
    var a := Step(b, ops[0]);
    ChunkArrives(b, ops[0]);
    assert forall m :: m in ms[k..] ==> m in ms;
    GoodIsKept(a, ms, q, Concat(ops[1..]));
    FramesReadLow(a, ms[..k]);
  }

  lemma LessToCome(ms: seq<Message>, pending: seq<Byte>, ops: seq<Chunk>, k: nat, t: seq<Byte>)
    requires AllSized(ms) && ops != [] && pending + Concat(ops) == Stream(ms) && k <= |ms|
    requires pending + ops[0].data == Stream(ms[..k]) + t && t + Concat(ops[1..]) == Stream(ms[k..])
    ensures (pending + ops[0].data) + Concat(ops[1..]) == Stream(ms)
    ensures |pending + ops[0].data| <= |Stream(ms)| && |Stream(ms[k..])| <= |Stream(ms)|
  {
    hide Frame, Stream, Concat;
    ConcatStep(pending, ops);
    Lengths(Stream(ms[..k]), t, Concat(ops[1..]));
  }

  lemma ConcatStep(pending: seq<Byte>, ops: seq<Chunk>)
    requires ops != []
    ensures pending + Concat(ops) == (pending + ops[0].data) + Concat(ops[1..])
  {
  }

  lemma Lengths(front: seq<Byte>, t: seq<Byte>, after: seq<Byte>)
    ensures |front + t| <= |(front + t) + after| && |t + after| <= |(front + t) + after|
  {
  }

  /** However the frames are cut into good chunks, by reads or by writes, from a buffer that holds nothing and whose
      read index is low, every cut survives: decoding after every chunk gives all the messages. */
  lemma GoodCuttingDelivers(b: Buf, ms: seq<Message>, ops: seq<Chunk>)
    requires b.Valid() && b.ReadAble() == 0 && ReadIsLow(b) && |b.bytes| <= INT_MAX
    requires AllEncodable(ms) && Concat(ops) == Stream(ms) && GoodCutting(ms, [], ops, |b.bytes|)
    requires forall m :: m in ms ==> FrameLen(m) + Max(|b.bytes|, 3 * |Stream(ms)|) <= INT_MAX
    ensures b.Contents() + Concat(ops) == Stream(ms) && Survives(b, ms, ops) && Arrive(b, ops)
    ensures var d := Deliver(b, ops);
            d.outcome == Finished && d.messages == SealAll(ms) && d.rest.ReadAble() == 0
  {
    hide Frame, Encodable, GoodCutting, Survives, Delivered, Deliver, Arrive, ReadIsLow;
    EncodableAreSized(ms);
    assert b.Contents() == [] && [] + Concat(ops) == Stream(ms);
    assert Whole(ms, 0) == 0;
    var most := Max(|b.bytes|, 3 * |Stream(ms)|);
    assert ms == [] ==> Stream(ms) == [];
    hide Stream, FrameLen, Whole;
    if ms != [] {
      assert ms[0] in ms;
    }
    GoodSurvives(b, ms, ops, |b.bytes|, most);
    DeliveredIff(b, ms, ops);
    DeliveredBringsAll(b, ms, ops);
  }

  /** A chunk received for each frame. */
  function FrameByFrame(ms: seq<Message>): seq<Chunk>
    requires AllSized(ms)
  {
    if ms == [] then [] else [Receive(Frame(ms[0]))] + FrameByFrame(ms[1..])
  }

  /** That is a good cutting, as long as each frame leaves a third of the capacity free. */
  lemma {:induction false} FrameByFrameIsGood(ms: seq<Message>, capacity: nat)
    requires AllSized(ms) && forall m :: m in ms ==> FrameLen(m) + capacity / 3 < capacity
    ensures Concat(FrameByFrame(ms)) == Stream(ms) && GoodCutting(ms, [], FrameByFrame(ms), capacity)
  {
    hide Frame, FrameLen, Sized;
    if ms != [] {
      FrameByFrameIsGood(ms[1..], capacity);
      FrameOnly(ms);
      assert FrameByFrame(ms)[1..] == FrameByFrame(ms[1..]) && [] + Frame(ms[0]) == Frame(ms[0]);
    }
  }

  lemma FrameOnly(ms: seq<Message>)
    requires AllSized(ms) && ms != []
    ensures Pending(ms, Frame(ms[0])) == [] && Whole(ms, FrameLen(ms[0])) == 1
  {
    hide Frame;
    assert Frame(ms[0])[FrameLen(ms[0])..] == [];
  }
}
