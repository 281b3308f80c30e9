/** Requests answered and replies matched to callbacks: netrpc/net/tcp/tcp_connection.cc. */
module Connections {
  import opened Bytes
  import opened Numerals
  import opened TcpBuffers
  import opened TinyPB
  import opened DecodeLoop
  import opened Dispatcher

  /** A registered callback, by name. */
  type Callback = nat

  /** A callback run with a message. */
  datatype Firing = Firing(callback: Callback, message: Message)

  // What the server side puts out.

  /** The replies that closures send while the batch is being dispatched. */
  function ClosureReplies(services: Registry, requests: seq<Message>): seq<Message> {
    if requests == [] then []
    else
      var d := Dispatch(services, requests[0]);
      (if d.sent then [Seal(d.response)] else []) + ClosureReplies(services, requests[1..])
  }

  /** A response as the loop of `excute` keeps it: a closure that has sent it has also sealed it. */
  function Response(services: Registry, request: Message): (r: Message)
    ensures r.parseSuccess <==> Dispatch(services, request).sent
    ensures Seal(r) == Seal(Dispatch(services, request).response)
  {
    var d := Dispatch(services, request);
    if d.sent then Seal(d.response) else d.response
  }

  /** The replies sent again as a batch at the end. */
  function Batch(services: Registry, requests: seq<Message>): (r: seq<Message>)
    ensures |r| == |requests|
  {
    seq(|requests|, i requires 0 <= i < |requests| => Response(services, requests[i]))
  }

  predicate RepliesSized(services: Registry, requests: seq<Message>) {
    forall m :: m in requests ==> Sized(Dispatch(services, m).response)
  }

  lemma SealSized(m: Message)
    requires Sized(m)
    ensures Sized(Seal(m)) && Frame(Seal(m)) == Frame(m) && Seal(Seal(m)) == Seal(m)
  {
  }

  lemma {:induction false} RepliesAreSized(services: Registry, requests: seq<Message>)
    requires RepliesSized(services, requests)
    ensures AllSized(ClosureReplies(services, requests)) && AllSized(Batch(services, requests))
  {
    hide Frame, Dispatch;
    forall i | 0 <= i < |requests| ensures Sized(Response(services, requests[i])) {
      SealSized(Dispatch(services, requests[i]).response);
    }
    if requests != [] {
      RepliesAreSized(services, requests[1..]);
      SealSized(Dispatch(services, requests[0]).response);
    }
  }

  function Served(services: Registry, requests: seq<Message>, out: Buf): (out': Buf)
    requires out.Valid() && RepliesSized(services, requests)
    ensures out'.Valid()
  {
    RepliesAreSized(services, requests);
    AppendAll(AppendAll(out, ClosureReplies(services, requests)), Batch(services, requests))
  }

  // What the client side fires.

  datatype Fired = Fired(left: map<seq<Byte>, Callback>, firings: seq<Firing>)

  /** Every message fires and unregisters the callback under its id, if there still is one. */
  function FireAll(dones: map<seq<Byte>, Callback>, messages: seq<Message>): Fired
    decreases |messages|
  {
    if messages == [] then Fired(dones, [])
    else
      var m := messages[0];
      if m.msgId in dones then
        var f := FireAll(dones - {m.msgId}, messages[1..]);
        f.(firings := [Firing(dones[m.msgId], m)] + f.firings)
      else FireAll(dones, messages[1..])
  }

  // What a call of `onWrite` puts on the wire.

  /** A result of `write`: a count, a full socket buffer, or another error. */
  datatype WriteResult = Wrote(count: nat) | Again | Failed

  /** How the writing loop is left: everything written, the socket full, or not yet. */
  datatype SendEnd = All | Blocked | Spinning

  datatype Sending = Sending(bytes: seq<Byte>, end: SendEnd)

  /** The writing loop over the results it meets: nothing is consumed, so each turn starts at the front again. */
  function Send(contents: seq<Byte>, results: seq<WriteResult>): (s: Sending)
    ensures contents == [] ==> s == Sending([], All)
    decreases |results|
  {
    if contents == [] then Sending([], All)
    else if results == [] then Sending([], Spinning)
    else
      match results[0]
      case Wrote(n) =>
        if n >= |contents| then Sending(contents, All)
        else var s := Send(contents, results[1..]); s.(bytes := PartOf(contents, results[0]) + s.bytes)
      case Again => Sending([], Blocked)
      case Failed => Send(contents, results[1..])
  }

  /** The turn at which the loop ends, if it does. */
  function LastTurn(size: nat, results: seq<WriteResult>): (k: nat)
    ensures k <= |results|
    decreases |results|
  {
    if results == [] || results[0].Again? || (results[0].Wrote? && results[0].count >= size) then 0
    else 1 + LastTurn(size, results[1..])
  }

  /** The front part of the contents that one write gets rid of. */
  function PartOf(contents: seq<Byte>, result: WriteResult): seq<Byte> {
    if result.Wrote? then contents[..Min(result.count, |contents|)] else []
  }

  /** What the first `turns` turns have put on the wire. */
  function PartialWrites(contents: seq<Byte>, results: seq<WriteResult>, turns: nat): seq<Byte>
    requires turns <= |results|
  {
    if turns == 0 then [] else PartOf(contents, results[0]) + PartialWrites(contents, results[1..], turns - 1)
  }

  /** A write that gets rid of nothing. */
  predicate Idle(result: WriteResult) {
    !result.Wrote? || result.count == 0
  }

  /** A loop that ends with everything written has written the whole contents last, after the front parts that its
      earlier turns got rid of: the other side sees the contents once, and clean, if and only if no earlier turn
      wrote anything. */
  lemma CleanSendIff(contents: seq<Byte>, results: seq<WriteResult>)
    requires contents != [] && Send(contents, results).end == All
    ensures var k := LastTurn(|contents|, results);
            && k < |results| && results[k].Wrote?
            && Send(contents, results).bytes == PartialWrites(contents, results, k) + contents
            && (Send(contents, results).bytes == contents <==> forall i :: 0 <= i < k ==> Idle(results[i]))
  {
    hide Send, PartialWrites, LastTurn, Idle;
    WholeComesLast(contents, results);
    var k := LastTurn(|contents|, results);
    NothingWrittenIff(contents, results, k);
    var before := PartialWrites(contents, results, k);
    assert |before + contents| == |before| + |contents|;
    assert before == [] ==> before + contents == contents;
  }

  lemma {:induction false} WholeComesLast(contents: seq<Byte>, results: seq<WriteResult>)
    requires contents != [] && Send(contents, results).end == All
    ensures var k := LastTurn(|contents|, results);
            && k < |results| && results[k].Wrote?
            && Send(contents, results).bytes == PartialWrites(contents, results, k) + contents
    decreases |results|
  {
    hide Send, PartialWrites, LastTurn, PartOf;
    var k := LastTurn(|contents|, results);
    if k > 0 {
      FirstTurn(contents, results);
      WholeComesLast(contents, results[1..]);
      assert results[1..][k - 1] == results[k];
      var first, rest := PartOf(contents, results[0]), PartialWrites(contents, results[1..], k - 1);
      assert first + (rest + contents) == (first + rest) + contents;
    } else {
      OnlyTurn(contents, results);
    }
  }

  lemma OnlyTurn(contents: seq<Byte>, results: seq<WriteResult>)
    requires contents != [] && Send(contents, results).end == All && LastTurn(|contents|, results) == 0
    ensures results != [] && results[0].Wrote?
    ensures Send(contents, results).bytes == contents == PartialWrites(contents, results, 0) + contents
  {
    assert [] + contents == contents;
  }

  lemma IdleWritesNothing(contents: seq<Byte>, result: WriteResult)
    requires contents != []
    ensures PartOf(contents, result) == [] <==> Idle(result)
  {
    assert result.Wrote? ==> |PartOf(contents, result)| == Min(result.count, |contents|);
  }

  lemma {:induction false} NothingWrittenIff(contents: seq<Byte>, results: seq<WriteResult>, k: nat)
    requires contents != [] && k <= |results|
    ensures PartialWrites(contents, results, k) == [] <==> forall i :: 0 <= i < k ==> Idle(results[i])
  {
    if k > 0 {
      NothingWrittenIff(contents, results[1..], k - 1);
      IdleWritesNothing(contents, results[0]);
      hide Idle, PartOf;
      assert forall i :: 1 <= i < k ==> results[i] == results[1..][i - 1];
      assert forall i :: 0 <= i < k - 1 ==> results[1..][i] == results[i + 1];
    }
  }

  lemma FirstTurn(contents: seq<Byte>, results: seq<WriteResult>)
    requires contents != [] && LastTurn(|contents|, results) > 0
    ensures var s := Send(contents, results[1..]);
            Send(contents, results) == s.(bytes := PartOf(contents, results[0]) + s.bytes)
    ensures LastTurn(|contents|, results) == 1 + LastTurn(|contents|, results[1..])
    ensures var k := LastTurn(|contents|, results);
            PartialWrites(contents, results, k)
            == PartOf(contents, results[0]) + PartialWrites(contents, results[1..], k - 1)
  {
    assert results[0].Failed? ==> PartOf(contents, results[0]) == [];
    hide PartOf;
    assert forall s: Sending :: s.(bytes := [] + s.bytes) == s;
  }

  datatype Side = Server | Client

  class TcpConnection {
    const side: Side
    const inBuffer: TcpBuffer
    const outBuffer: TcpBuffer
    var readDones: map<seq<Byte>, Callback>
    var writeDones: seq<(Message, Callback)>
    var fired: seq<Firing>  // the callbacks run so far, in order

    ghost predicate Valid()
      reads this, inBuffer, outBuffer
    {
      && inBuffer.Valid() && outBuffer.Valid()
      && inBuffer != outBuffer && inBuffer.buffer != outBuffer.buffer
    }

    constructor (side: Side, bufferSize: nat)
      ensures Valid() && inBuffer.View() == outBuffer.View() == Empty(bufferSize)
      ensures this.side == side && readDones == map[] && writeDones == [] && fired == []
      ensures fresh(inBuffer) && fresh(outBuffer) && fresh(inBuffer.buffer) && fresh(outBuffer.buffer)
    {
      this.side := side;
      inBuffer := new TcpBuffer(bufferSize);
      outBuffer := new TcpBuffer(bufferSize);
      readDones, writeDones, fired := map[], [], [];
    }

    /** Keeps the callback already registered under `msgId`, as `std::map::insert` does. */
    method PushReadMessage(msgId: seq<Byte>, done: Callback)
      modifies this`readDones
      ensures readDones == old(if msgId in readDones then readDones else readDones[msgId := done])
    {
      if msgId !in readDones {
        readDones := readDones[msgId := done];
      }
    }

    method PushSendMessage(message: Message, done: Callback)
      modifies this`writeDones
      ensures writeDones == old(writeDones) + [(message, done)]
    {
      writeDones := writeDones + [(message, done)];
    }

    method Reply(replies: seq<Message>) returns (sealed: seq<Message>)
      requires Valid() && AllSized(replies)
      modifies outBuffer, outBuffer.buffer
      ensures Valid() && (fresh(outBuffer.buffer) || outBuffer.buffer == old(outBuffer.buffer))
      ensures outBuffer.View() == AppendAll(old(outBuffer.View()), replies) && sealed == SealAll(replies)
    {
      sealed := Encode(replies, outBuffer);
    }

    /** `RpcDispatcher::dispatch` on this connection: a closure that runs replies at once. */
    method DispatchOne(services: Registry, request: Message) returns (response: Message)
      requires Valid() && Sized(Dispatch(services, request).response)
      modifies outBuffer, outBuffer.buffer
      ensures Valid() && (fresh(outBuffer.buffer) || outBuffer.buffer == old(outBuffer.buffer))
      ensures response == Response(services, request)
      ensures var d := Dispatch(services, request);
              outBuffer.View() == AppendAll(old(outBuffer.View()), if d.sent then [d.response] else [])
    {
      hide Dispatch, Frame, Append;
      var d := Dispatch(services, request);
      response := d.response;
      if d.sent {
        var sealed := Reply([d.response]);
        response := sealed[0];
      }
    }

    /** The loop of the server branch: every request dispatched in order, its response kept. */
    method DispatchEach(services: Registry, requests: seq<Message>) returns (replies: seq<Message>)
      requires Valid() && RepliesSized(services, requests) && AllSized(ClosureReplies(services, requests))
      modifies outBuffer, outBuffer.buffer
      ensures Valid() && (fresh(outBuffer.buffer) || outBuffer.buffer == old(outBuffer.buffer))
      ensures replies == Batch(services, requests)
      ensures outBuffer.View() == AppendAll(old(outBuffer.View()), ClosureReplies(services, requests))
    {
      hide Dispatch, Frame, AppendAll, ClosureReplies, Seal, Response;
      replies := [];
      ghost var goal := AppendAll(outBuffer.View(), ClosureReplies(services, requests));
      for i := 0 to |requests|
        invariant Valid() && (fresh(outBuffer.buffer) || outBuffer.buffer == old(outBuffer.buffer))
        invariant replies == Batch(services, requests[..i])
        invariant RepliesSized(services, requests[i..]) && AllSized(ClosureReplies(services, requests[i..]))
        invariant AppendAll(outBuffer.View(), ClosureReplies(services, requests[i..])) == goal
      {
        ClosureStep(services, requests[i..], outBuffer.View());
        assert requests[i..][0] == requests[i] && requests[i..][1..] == requests[i + 1..];
        var message := DispatchOne(services, requests[i]);
        assert requests[..i + 1] == requests[..i] + [requests[i]];
        replies := replies + [message];
      }
      assert requests[..|requests|] == requests && requests[|requests|..] == [];
      NothingMore(services, outBuffer.View());
    }

    /** The server branch of `excute`: decode, dispatch every request, then send all the responses. */
    method ExcuteServer(services: Registry) returns (outcome: Outcome)
      requires Valid() && RepliesSized(services, DecodeAll(inBuffer.View()).messages)
      modifies inBuffer, outBuffer, inBuffer.buffer, outBuffer.buffer
      ensures Valid()
      ensures var d := old(DecodeAll(inBuffer.View()));
              && outcome == d.outcome && inBuffer.View() == d.rest
              && outBuffer.View() == if d.outcome.Finished? then Served(services, d.messages, old(outBuffer.View()))
                                     else old(outBuffer.View())
    {
      hide Dispatch, Frame, AppendAll, ClosureReplies, DecodeAll, Batch, Sized;
      ghost var d := DecodeAll(inBuffer.View());
      var requests;
      outcome, requests := DecodeBuffer([], inBuffer);
      assert [] + d.messages == d.messages;
      assert outBuffer.View() == old(outBuffer.View());
      if outcome.Finished? {
        RepliesAreSized(services, requests);
        ghost var out := outBuffer.View();
        var replies := DispatchEach(services, requests);
        var _ := Encode(replies, outBuffer);
        assert outBuffer.View() == Served(services, requests, out);
      }
    }

    /** The client branch of `excute`. */
    method ExcuteClient() returns (outcome: Outcome)
      requires Valid()
      modifies this`readDones, this`fired, inBuffer
      ensures Valid() && (fresh(inBuffer.buffer) || inBuffer.buffer == old(inBuffer.buffer))
      ensures var d := old(DecodeAll(inBuffer.View())); var f := FireAll(old(readDones), d.messages);
              && outcome == d.outcome && inBuffer.View() == d.rest
              && (d.outcome.Finished? ==> readDones == f.left && fired == old(fired) + f.firings)
              && (!d.outcome.Finished? ==> readDones == old(readDones) && fired == old(fired))
    {
      hide DecodeAll, FireAll;
      ghost var d := DecodeAll(inBuffer.View());
      var result;
      outcome, result := DecodeBuffer([], inBuffer);
      assert [] + d.messages == d.messages;
      if outcome.Finished? {
        FireEach(result);
      }
    }

    /** The loop of the client branch: the callback under the id of each message runs and is erased. */
    method FireEach(result: seq<Message>)
      modifies this`readDones, this`fired
      ensures var f := FireAll(old(readDones), result); readDones == f.left && fired == old(fired) + f.firings
    {
      ghost var goal := FireAll(readDones, result);
      for i := 0 to |result|
        invariant var f := FireAll(readDones, result[i..]);
                  goal.left == f.left && old(fired) + goal.firings == fired + f.firings
      {
        var m := result[i];
        assert result[i..][1..] == result[i + 1..];
        if m.msgId in readDones {
          ghost var rest := FireAll(readDones - {m.msgId}, result[i + 1..]).firings;
          assert fired + ([Firing(readDones[m.msgId], m)] + rest) == fired + [Firing(readDones[m.msgId], m)] + rest;
          fired := fired + [Firing(readDones[m.msgId], m)];
          readDones := readDones - {m.msgId};
        }
      }
    }

    /** `onWrite` on a socket that answers its writes with `results`, as far as the loop gets with them: the client
        first encodes what is queued; nothing is consumed; once the loop has ended, with everything written or
        not, the client runs and forgets the callbacks of the queue. */
    method OnWrite(results: seq<WriteResult>) returns (sent: seq<Byte>, end: SendEnd)
      requires Valid() && (side.Client? ==> AllSized(Queued(writeDones)))
      modifies this`writeDones, this`fired, outBuffer, outBuffer.buffer
      ensures Valid() && inBuffer.View() == old(inBuffer.View())
      ensures fresh(outBuffer.buffer) || outBuffer.buffer == old(outBuffer.buffer)
      ensures outBuffer.View() == if side.Client? then AppendAll(old(outBuffer.View()), Queued(old(writeDones)))
                                  else old(outBuffer.View())
      ensures Sending(sent, end) == Send(outBuffer.View().Contents(), results)
      ensures if side.Client? && !end.Spinning?
              then writeDones == [] && fired == old(fired) + WriteFirings(old(writeDones))
              else writeDones == old(writeDones) && fired == old(fired)
      ensures var w, n := old(writeDones), |old(fired)|;
              side.Client? && !end.Spinning? ==>
                |fired| == n + |w| && forall k :: 0 <= k < |w| ==>
                  fired[n + k].callback == w[k].1 && fired[n + k].message == Seal(w[k].0)
      ensures var w := old(writeDones);
              side.Client? ==> forall ms :: MessagesOf(ms, w) ==>
                AllSized(ms) && outBuffer.View().Contents() == old(outBuffer.View().Contents()) + Stream(ms)
    {
      hide Frame, AppendAll, Seal, WriteFirings, Send, Stream, Queued;
      ghost var w := writeDones;
      assert forall ms :: MessagesOf(ms, w) ==> ms == Queued(w);
      hide MessagesOf;
      var sealed := [];
      if side.Client? {
        sealed := EncodeQueued();
      }
      sent, end := WriteAll(results);
      if side.Client? && !end.Spinning? {
        RunWriteDones(sealed);
        writeDones := [];
      }
    }

    /** The writing loop. */
    method WriteAll(results: seq<WriteResult>) returns (sent: seq<Byte>, end: SendEnd)
      requires Valid()
      ensures Sending(sent, end) == Send(outBuffer.View().Contents(), results)
    {
      ghost var contents := outBuffer.View().Contents();
      sent := [];
      var turn := 0;
      while true
        invariant turn <= |results|
        invariant Send(contents, results)
                  == var s := Send(contents, results[turn..]); s.(bytes := sent + s.bytes)
        decreases |results| - turn
      {
        assert sent + [] == sent;
        if outBuffer.ReadAble() == 0 {
          return sent, All;
        }
        if turn == |results| {
          return sent, Spinning;
        }
        var bytes := outBuffer.buffer[outBuffer.readIndex..outBuffer.writeIndex];
        assert bytes == contents;
        assert results[turn..][1..] == results[turn + 1..];
        var rt := results[turn];
        if rt.Wrote? && rt.count >= |bytes| {
          return sent + bytes, All;
        } else if rt.Again? {
          return sent, Blocked;
        } else if rt.Wrote? {
          ghost var rest := Send(contents, results[turn + 1..]).bytes;
          assert sent + (bytes[..rt.count] + rest) == sent + bytes[..rt.count] + rest;
          sent := sent + bytes[..rt.count];
        }
        turn := turn + 1;
      }
    }

    method EncodeQueued() returns (sealed: seq<Message>)
      requires Valid() && AllSized(Queued(writeDones))
      modifies outBuffer, outBuffer.buffer
      ensures Valid() && (fresh(outBuffer.buffer) || outBuffer.buffer == old(outBuffer.buffer))
      ensures outBuffer.View() == AppendAll(old(outBuffer.View()), Queued(writeDones))
      ensures sealed == SealAll(Queued(writeDones))
    {
      var messages := [];
      for i := 0 to |writeDones|
        modifies {}
        invariant messages == Queued(writeDones[..i])
      {
        messages := messages + [writeDones[i].0];
      }
      assert writeDones[..|writeDones|] == writeDones;
      sealed := Encode(messages, outBuffer);
    }

    method RunWriteDones(sealed: seq<Message>)
      requires sealed == SealAll(Queued(writeDones))
      modifies this`fired
      ensures fired == old(fired) + WriteFirings(writeDones)
    {
      for i := 0 to |writeDones|
        invariant fired == old(fired) + WriteFirings(writeDones[..i])
      {
        fired := fired + [Firing(writeDones[i].1, sealed[i])];
        assert WriteFirings(writeDones[..i + 1])
            == WriteFirings(writeDones[..i]) + [Firing(writeDones[i].1, Seal(writeDones[i].0))];
      }
      assert writeDones[..|writeDones|] == writeDones;
    }
  }

  /** `ms` are the messages of the queue `dones`, in order. */
  predicate MessagesOf(ms: seq<Message>, dones: seq<(Message, Callback)>) {
    |ms| == |dones| && forall k :: 0 <= k < |ms| ==> ms[k] == dones[k].0
  }

  function Queued(dones: seq<(Message, Callback)>): (r: seq<Message>)
    ensures MessagesOf(r, dones)
  {
    seq(|dones|, i requires 0 <= i < |dones| => dones[i].0)
  }

  function WriteFirings(dones: seq<(Message, Callback)>): (r: seq<Firing>)
    ensures |r| == |dones|
    ensures forall k :: 0 <= k < |r| ==> r[k].callback == dones[k].1 && r[k].message == Seal(dones[k].0)
  {
    seq(|dones|, i requires 0 <= i < |dones| => Firing(dones[i].1, Seal(dones[i].0)))
  }

  lemma NothingMore(services: Registry, out: Buf)
    requires out.Valid()
    ensures ClosureReplies(services, []) == [] && AppendAll(out, []) == out
  {
  }

  lemma ClosureStep(services: Registry, requests: seq<Message>, out: Buf)
    requires out.Valid() && requests != [] && RepliesSized(services, requests)
    requires AllSized(ClosureReplies(services, requests))
    ensures RepliesSized(services, requests[1..]) && AllSized(ClosureReplies(services, requests[1..]))
    ensures var d := Dispatch(services, requests[0]);
            Sized(d.response) &&
            AppendAll(out, ClosureReplies(services, requests))
            == AppendAll(AppendAll(out, if d.sent then [d.response] else []), ClosureReplies(services, requests[1..]))
  {
    hide Dispatch, Frame, Append, Seal;
    RepliesAreSized(services, requests[1..]);
    var d := Dispatch(services, requests[0]);
    SealSized(d.response);
    var rest := ClosureReplies(services, requests[1..]);
    if d.sent {
      assert ([Seal(d.response)] + rest)[1..] == rest;
    } else {
      assert [] + rest == rest;
    }
  }
}
