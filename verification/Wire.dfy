/** The client over a whole exchange: replies that arrive in pieces, and what partial writes of the server do. */
module Wire {
  import opened Bytes
  import opened Numerals
  import opened TcpBuffers
  import opened TinyPB
  import opened DecodeLoop
  import opened FrameStreams
  import opened Delivery
  import opened Cuts
  import opened Chunks
  import opened Dispatcher
  import opened Connections
  import opened EndToEnd

  // A run of `excute` calls.

  /** What the client fires when each chunk that comes in is followed by a call of `excute`. */
  function ClientRun(b: Buf, dones: map<seq<Byte>, Callback>, ops: seq<Chunk>): Fired
    requires b.Valid() && Arrive(b, ops)
    decreases |ops|
  {
    if ops == [] then Fired(dones, [])
    else
      var d := DecodeAll(Step(b, ops[0]));
      if !d.outcome.Finished? then Fired(dones, [])
      else
        var f := FireAll(dones, d.messages);
        var g := ClientRun(d.rest, f.left, ops[1..]);
        g.(firings := f.firings + g.firings)
  }

  /** Call after call fires what one call on all the messages would. */
  lemma {:induction false} ClientRunIsFireAll(b: Buf, dones: map<seq<Byte>, Callback>, ops: seq<Chunk>)
    requires b.Valid() && Arrive(b, ops) && Deliver(b, ops).outcome == Finished
    ensures ClientRun(b, dones, ops) == FireAll(dones, Deliver(b, ops).messages)
    decreases |ops|
  {
    hide Step, DecodeAll, Legal, FireAll;
    if ops == [] {
      NothingFires(dones);
    } else {
      var d := DecodeAll(Step(b, ops[0]));
      ClientRunIsFireAll(d.rest, FireAll(dones, d.messages).left, ops[1..]);
      FireAllConcat(dones, d.messages, Deliver(d.rest, ops[1..]).messages);
    }
  }

  lemma NothingFires(dones: map<seq<Byte>, Callback>)
    ensures FireAll(dones, []) == Fired(dones, [])
  {
  }

  /** However the frames of the server are cut on their way to the client, as long as every cut survives: after the
      last call of `excute` each registered callback has fired exactly once, with the reply to its own request. */
  lemma ClientFiresInPieces(services: Registry, requests: seq<Message>, olds: seq<Message>, frames: seq<Message>,
                            dones: map<seq<Byte>, Callback>, inBuf: Buf, ops: seq<Chunk>)
    requires Answers(services, requests, olds, frames, dones) && AllSized(frames)
    requires inBuf.Valid() && inBuf.ReadAble() == 0 && ReadIsLow(inBuf) && Concat(ops) == Stream(frames)
    requires inBuf.Contents() + Concat(ops) == Stream(frames) && Survives(inBuf, frames, ops)
    ensures Arrive(inBuf, ops)
    ensures var f := ClientRun(inBuf, dones, ops);
            f.left == dones - Ids(requests) && OnceEach(f.firings, dones, Ids(requests), ReplyTo(services, requests))
  {
    hide Frame, Encodable, Answers, OnceEach, ReplyTo, Stream, FireAll, SealAll, Ids, Survives, Delivered, Deliver;
    hide Arrive, ClientRun;
    AnswersFire(services, requests, olds, frames, dones);
    NoneWhole(frames);
    DeliveredIff(inBuf, frames, ops);
    DeliveredBringsAll(inBuf, frames, ops);
    ClientRunIsFireAll(inBuf, dones, ops);
  }

  /** The connection's own calls: each chunk comes into the in buffer and `excute` follows; `ran` are the callbacks
      run before. */
  method ExcuteRounds(connection: TcpConnection, ops: seq<Chunk>, ghost ran: seq<Firing>)
    requires connection.Valid() && Arrive(connection.inBuffer.View(), ops) && connection.fired == ran
    requires Deliver(connection.inBuffer.View(), ops).outcome == Finished
    modifies connection, connection.inBuffer, connection.inBuffer.buffer
    ensures connection.Valid()
    ensures var f := ClientRun(old(connection.inBuffer.View()), old(connection.readDones), ops);
            connection.readDones == f.left && connection.fired == ran + f.firings
  {
    hide DecodeAll, Step, Legal, FireAll, ClientRun, Deliver, Arrive;
    ghost var goal := ClientRun(connection.inBuffer.View(), connection.readDones, ops);
    for i := 0 to |ops|
      invariant connection.Valid()
      invariant fresh(connection.inBuffer.buffer) || connection.inBuffer.buffer == old(connection.inBuffer.buffer)
      invariant Arrive(connection.inBuffer.View(), ops[i..])
      invariant Deliver(connection.inBuffer.View(), ops[i..]).outcome == Finished
      invariant var f := ClientRun(connection.inBuffer.View(), connection.readDones, ops[i..]);
                goal.left == f.left && ran + goal.firings == connection.fired + f.firings
    {
      assert ops[i..][0] == ops[i] && ops[i..][1..] == ops[i + 1..];
      ghost var dones, fired := connection.readDones, connection.fired;
      NextRun(connection.inBuffer.View(), dones, ops[i..]);
      ghost var f := FireAll(dones, DecodeAll(Step(connection.inBuffer.View(), ops[i])).messages);
      ExcuteOnce(connection, ops[i]);
      ghost var g := ClientRun(connection.inBuffer.View(), f.left, ops[i + 1..]);
      assert fired + (f.firings + g.firings) == (fired + f.firings) + g.firings;
    }
    LastRun(connection.inBuffer.View(), connection.readDones, ops[|ops|..]);
  }

  method ExcuteOnce(connection: TcpConnection, op: Chunk)
    requires connection.Valid() && Legal(connection.inBuffer.View(), op)
    requires DecodeAll(Step(connection.inBuffer.View(), op)).outcome == Finished
    modifies connection, connection.inBuffer, connection.inBuffer.buffer
    ensures connection.Valid()
    ensures fresh(connection.inBuffer.buffer) || connection.inBuffer.buffer == old(connection.inBuffer.buffer)
    ensures var d := DecodeAll(Step(old(connection.inBuffer.View()), op));
            var f := FireAll(old(connection.readDones), d.messages);
            && connection.inBuffer.View() == d.rest && connection.readDones == f.left
            && connection.fired == old(connection.fired) + f.firings
  {
    hide DecodeAll, Step, Legal, FireAll;
    TakeIn(connection.inBuffer, op);
    var outcome := connection.ExcuteClient();
  }

  lemma NextRun(b: Buf, dones: map<seq<Byte>, Callback>, ops: seq<Chunk>)
    requires b.Valid() && ops != [] && Arrive(b, ops) && Deliver(b, ops).outcome == Finished
    ensures Legal(b, ops[0]) && DecodeAll(Step(b, ops[0])).outcome == Finished
    ensures var d := DecodeAll(Step(b, ops[0])); var f := FireAll(dones, d.messages);
            && Arrive(d.rest, ops[1..]) && Deliver(d.rest, ops[1..]).outcome == Finished
            && var g := ClientRun(d.rest, f.left, ops[1..]);
               ClientRun(b, dones, ops) == g.(firings := f.firings + g.firings)
  {
    hide DecodeAll, Step, Legal, FireAll;
  }

  lemma LastRun(b: Buf, dones: map<seq<Byte>, Callback>, ops: seq<Chunk>)
    requires b.Valid() && ops == [] && Arrive(b, ops)
    ensures ClientRun(b, dones, ops) == Fired(dones, [])
  {
  }

  /** Bytes come into a buffer: received behind the write index, or written. */
  method TakeIn(buffer: TcpBuffer, op: Chunk)
    requires buffer.Valid() && Legal(buffer.View(), op)
    modifies buffer, buffer.buffer
    ensures buffer.Valid() && (fresh(buffer.buffer) || buffer.buffer == old(buffer.buffer))
    ensures buffer.View() == Step(old(buffer.View()), op)
  {
    hide Overwrite, MoveWrite, Append;
    match op {
      case Receive(data) =>
        buffer.CopyIn(data);
        buffer.MoveWriteIndex(|data|);
      case Write(data) =>
        buffer.WriteToBuffer(data);
    }
  }

  lemma NoneWhole(ms: seq<Message>)
    requires AllSized(ms)
    ensures Whole(ms, 0) == 0
  {
  }

  // Partial writes.

  /** The frames whose bytes go out when every partial write ends at the end of a frame. */
  function FramesSent(frames: seq<Message>, results: seq<WriteResult>): seq<Message>
    requires AllSized(frames)
    decreases |results|
  {
    if Stream(frames) == [] || results == [] then []
    else
      match results[0]
      case Wrote(n) =>
        if n >= |Stream(frames)| then frames
        else frames[..Whole(frames, n)] + FramesSent(frames, results[1..])
      case Again => []
      case Failed => FramesSent(frames, results[1..])
  }

  /** Every write that takes only a part of the frames takes whole ones. */
  predicate AtFrameEnds(frames: seq<Message>, results: seq<WriteResult>)
    requires AllSized(frames)
    decreases |results|
  {
    var s := Stream(frames);
    s == [] || results == [] || results[0].Again? || (results[0].Wrote? && results[0].count >= |s|)
    || ((results[0].Wrote? ==> Pending(frames, s[..results[0].count]) == []) && AtFrameEnds(frames, results[1..]))
  }

  /** Then what goes out is a stream of whole frames, the sent ones among them all if the loop ends with all written. */
  lemma {:induction false} WholeFramesGoOut(frames: seq<Message>, results: seq<WriteResult>)
    requires AllSized(frames) && AtFrameEnds(frames, results)
    ensures var out := FramesSent(frames, results); var s := Send(Stream(frames), results);
            && AllSized(out) && s.bytes == Stream(out)
            && (forall m :: m in out ==> m in frames) && (s.end == All ==> forall m :: m in frames ==> m in out)
    decreases |results|
  {
    hide Frame, Sized, Whole, Pending;
    var s := Stream(frames);
    if s != [] && results != [] && !results[0].Again? && !(results[0].Wrote? && results[0].count >= |s|) {
      WholeFramesGoOut(frames, results[1..]);
      if results[0].Wrote? {
        WholeFront(frames, results[0].count, FramesSent(frames, results[1..]));
      }
    } else {
      NoFrames(frames);
    }
  }

  lemma NoFrames(frames: seq<Message>)
    requires AllSized(frames)
    ensures Stream(frames) == [] <==> frames == []
  {
    hide Frame;
  }

  lemma WholeFront(frames: seq<Message>, n: nat, more: seq<Message>)
    requires AllSized(frames) && n < |Stream(frames)| && Pending(frames, Stream(frames)[..n]) == [] && AllSized(more)
    ensures var front := frames[..Whole(frames, n)];
            AllSized(front + more) && Stream(front + more) == Stream(frames)[..n] + Stream(more)
  {
    hide Frame, Sized, Whole, Pending, Stream;
    var s, k := Stream(frames), Whole(frames, n);
    assert s[..n] + s[n..] == s && |s[..n]| == n;
    WholeFrames(frames, s[..n], s[n..]);
    assert Stream(frames[..k]) + [] == Stream(frames[..k]);
    StreamConcat(frames[..k], more);
  }

  /** So when the server's writes take whole frames at a time, the client is none the wiser: whatever is sent again,
      each registered callback fires exactly once with the reply to its own request. */
  lemma PartialWritesFire(services: Registry, requests: seq<Message>, olds: seq<Message>, frames: seq<Message>,
                          results: seq<WriteResult>, dones: map<seq<Byte>, Callback>, clientIn: Buf, ops: seq<Chunk>)
    requires Answers(services, requests, olds, frames, dones) && AllSized(frames)
    requires AtFrameEnds(frames, results) && Send(Stream(frames), results).end == All
    requires clientIn.Valid() && clientIn.ReadAble() == 0 && ReadIsLow(clientIn)
    requires Concat(ops) == Send(Stream(frames), results).bytes
    requires var out := FramesSent(frames, results);
             AllSized(out) && clientIn.Contents() + Concat(ops) == Stream(out) && Survives(clientIn, out, ops)
    ensures Arrive(clientIn, ops)
    ensures var f := ClientRun(clientIn, dones, ops);
            f.left == dones - Ids(requests) && OnceEach(f.firings, dones, Ids(requests), ReplyTo(services, requests))
  {
    hide Frame, Encodable, OnceEach, ReplyTo, Stream, Send, SealAll, Ids, Survives, AtFrameEnds, FramesSent, Sized;
    hide ClientRun, Arrive, SentFor, Batch, RepliesSized, DistinctIds, AllReady;
    WholeFramesGoOut(frames, results);
    ClientFiresInPieces(services, requests, olds, FramesSent(frames, results), dones, clientIn, ops);
  }

  /** A partial write inside a frame is another matter: seven bytes of this frame and then the whole of it reach a
      client as a frame whose id would have 512 bytes, more than the array for it holds. */
  lemma PartialWriteBreaks()
    ensures var m := Tiny([PB_END, PB_START, 0]); var s := Send(Frame(m), [Wrote(7), Wrote(30)]);
            && Encodable(m) && s == Sending(Frame(m)[..7] + Frame(m), All)
            && Decode(Buf(s.bytes + [0], 0, 37)).outcome == Undefined
            && Decode(Buf(s.bytes + [0], 0, 37)).messages == []
  {
    hide Decode, Frame, Send, GetInt32;
    var m := Tiny([PB_END, PB_START, 0]);
    var f, b := Frame(m), Frame(m)[..7] + Frame(m) + [0];
    SevenThenAll(f);
    TinyFrame(m);
    CutFrame(f);
    NetField(b, 1, 30);
    NetField(b, 5, 512);
    LongId(Buf(b, 0, 37));
  }

  lemma SevenThenAll(f: seq<Byte>)
    requires |f| == 30
    ensures Send(f, [Wrote(7), Wrote(30)]) == Sending(f[..7] + f, All)
  {
    var results := [Wrote(7), Wrote(30)];
    assert results[1..] == [Wrote(30)] && f[..7] + f == PartOf(f, Wrote(7)) + f;
    assert Send(f, [Wrote(30)]) == Sending(f, All);
  }

  lemma SmallInNetOrder(n: nat)
    requires n < 0x100
    ensures NetBytes(n) == [0, 0, 0, n]
  {
    assert Digits(n, 4) == Digits(0, 3) + [n];
    assert Digits(0, 3) == Digits(0, 2) + [0];
    assert Digits(0, 2) == Digits(0, 1) + [0];
    assert Digits(0, 1) == Digits(0, 0) + [0];
  }

  lemma TinyFrame(m: Message)
    requires m == Tiny([PB_END, PB_START, 0])
    ensures var f := Frame(m);
            |f| == 30 && f[0] == 2 && f[1] == f[2] == f[3] == 0 && f[4] == 30 && f[5] == f[6] == 0 && f[22] == 3
  {
    hide NetBytes, Frame, GetInt32;
    var f := Frame(m);
    SmallInNetOrder(30);
    assert At(f, 0, f);
    FrameLaidOut(f, 0, m);
    FrameOpens(m);
  }

  lemma FrameOpens(m: Message)
    requires m == Tiny([PB_END, PB_START, 0])
    ensures var f := Frame(m);
            |f| == 30 && f[0] == 2 && f[1] == f[2] == f[3] == 0 && f[4] == 30 && f[5] == f[6] == 0
  {
    hide NetBytes;
    SmallInNetOrder(30);
    SmallInNetOrder(1);
  }

  /** Where the bytes of a frame are when its first seven precede it. */
  lemma CutFrame(f: seq<Byte>)
    requires |f| == 30 && f[0] == 2 && f[1] == f[2] == f[3] == 0 && f[4] == 30 && f[5] == f[6] == 0 && f[22] == 3
    ensures var b := f[..7] + f + [0];
            |b| == 38 && b[0] == 2 && b[29] == 3 && b[1..5] == [0, 0, 0, 30] && b[5..9] == [0, 0, 2, 0]
  {
    var p := f[..7];
    var b := p + f + [0];
    assert forall k :: 0 <= k < 7 ==> b[k] == p[k] == f[k];
    assert forall k :: 7 <= k < 37 ==> b[k] == f[k - 7];
    FourBytes(b, 1);
    FourBytes(b, 5);
  }

  lemma FourBytes(s: seq<Byte>, i: nat)
    requires i + 4 <= |s|
    ensures s[i..i + 4] == [s[i], s[i + 1], s[i + 2], s[i + 3]]
  {
  }

  lemma NetField(s: seq<Byte>, i: nat, n: nat)
    requires n < 0x1_0000 && i + 4 <= |s| && s[i..i + 4] == [0, 0, n / 0x100, n % 0x100]
    ensures GetInt32(s, i) == n
  {
    assert NetBytes(n) == [0, 0, n / 0x100, n % 0x100] by {
      assert Digits(n, 4) == Digits(n / 0x100, 3) + [n % 0x100];
      assert Digits(n / 0x100, 3) == Digits(0, 2) + [n / 0x100];
      assert Digits(0, 2) == Digits(0, 1) + [0];
      assert Digits(0, 1) == Digits(0, 0) + [0];
    }
    NetRoundTrip(n, s, i);
  }

  /** What is taken for a frame asks for an id longer than the array. */
  lemma LongId(b: Buf)
    requires b.Valid() && b.read == 0 && b.write == 37 && |b.bytes| == 38
    requires b.bytes[0] == PB_START && GetInt32(b.bytes, 1) == 30 && b.bytes[29] == PB_END
    requires GetInt32(b.bytes, 5) == 512
    ensures Decode(b).outcome == Undefined && Decode(b).messages == []
  {
    hide GetInt32;
    assert ScanFrom(b.bytes, 37, 0) == Found(0, 29, 30);
    assert ParseFrame(b.bytes, 0, 29, 30) == Broken;
  }
}
