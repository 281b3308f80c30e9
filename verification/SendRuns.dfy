/** The client's queue over whole runs: `pushSendMessage` and `onWrite` of netrpc/net/tcp/tcp_connection.cc in turn. */
module SendRuns {
  import opened Bytes
  import opened TcpBuffers
  import opened TinyPB
  import opened Dispatcher
  import opened Connections
  import opened EndToEnd

  type Pending = seq<(Message, Callback)>

  datatype SendOp = Push(message: Message, done: Callback) | Flush(results: seq<WriteResult>)

  /** Messages that can be encoded, and writes among whose results there is one that ends the loop: results behind
      the end of a loop are never looked at. */
  predicate Sendable(ops: seq<SendOp>) {
    forall i :: 0 <= i < |ops| ==>
      match ops[i]
      case Push(m, _) => Sized(m)
      case Flush(results) => Again in results
  }

  predicate QueueSized(queue: Pending) {
    forall k :: 0 <= k < |queue| ==> Sized(queue[k].0)
  }

  /** What a run pushes, in order. */
  function Pushed(ops: seq<SendOp>): (queue: Pending)
    ensures Sendable(ops) ==> QueueSized(queue)
  {
    if ops == [] then []
    else
      var n := |ops| - 1;
      Pushed(ops[..n]) + if ops[n].Push? then [(ops[n].message, ops[n].done)] else []
  }

  /** `out` is `before` with the frames of the messages of `queue` behind it. */
  ghost predicate Encoded(out: seq<Byte>, before: seq<Byte>, queue: Pending) {
    exists ms :: MessagesOf(ms, queue) && AllSized(ms) && out == before + Stream(ms)
  }

  /** `fired` is `before` and then each callback of `queue` once, in order, with its own message as sealed. */
  predicate Ran(fired: seq<Firing>, before: seq<Firing>, queue: Pending) {
    && before <= fired && |fired| == |before| + |queue|
    && forall k :: 0 <= k < |queue| ==> fired[|before| + k] == Firing(queue[k].1, Seal(queue[k].0))
  }

  lemma {:induction false} LoopEnds(contents: seq<Byte>, results: seq<WriteResult>)
    requires Again in results
    ensures !Send(contents, results).end.Spinning?
    decreases |results|
  {
    if contents != [] && !results[0].Again? {
      assert results == [results[0]] + results[1..];
      LoopEnds(contents, results[1..]);
    }
  }

  lemma NothingEncoded(out: seq<Byte>)
    ensures Encoded(out, out, [])
  {
    assert MessagesOf([], []) && out + Stream([]) == out;
  }

  lemma QueueEncoded(out: seq<Byte>, before: seq<Byte>, queue: Pending)
    requires forall ms :: MessagesOf(ms, queue) ==> AllSized(ms) && out == before + Stream(ms)
    ensures Encoded(out, before, queue)
  {
    assert MessagesOf(Queued(queue), queue);
  }

  lemma EncodedMore(out: seq<Byte>, before: seq<Byte>, a: Pending, b: Pending, out': seq<Byte>)
    requires Encoded(out, before, a) && Encoded(out', out, b)
    ensures Encoded(out', before, a + b)
  {
    hide Sized, Frame, Stream;
    var ms :| MessagesOf(ms, a) && AllSized(ms) && out == before + Stream(ms);
    var ns :| MessagesOf(ns, b) && AllSized(ns) && out' == out + Stream(ns);
    StreamConcat(ms, ns);
    assert before + Stream(ms) + Stream(ns) == before + (Stream(ms) + Stream(ns));
    assert MessagesOf(ms + ns, a + b);
  }

  lemma NothingRan(fired: seq<Firing>)
    ensures Ran(fired, fired, []) && Pushed([]) == []
  {
  }

  lemma RanMore(fired: seq<Firing>, before: seq<Firing>, a: Pending, b: Pending, fired': seq<Firing>)
    requires Ran(fired, before, a) && Ran(fired', fired, b)
    ensures Ran(fired', before, a + b)
  {
    hide Seal;
  }

  lemma PushedMore(ops: seq<SendOp>, i: nat)
    requires i < |ops|
    ensures Pushed(ops[..i + 1]) == Pushed(ops[..i]) + if ops[i].Push? then [(ops[i].message, ops[i].done)] else []
  {
    assert ops[..i + 1][..i] == ops[..i];
  }

  /** Over any run of the two calls: what has been pushed up to the last write is encoded in order behind what the
      out buffer held, and its callbacks have run in that order, each exactly once; what was pushed later is queued. */
  method RunSends(connection: TcpConnection, ops: seq<SendOp>) returns (ghost cut: nat)
    requires connection.Valid() && connection.side.Client? && Sendable(ops) && QueueSized(connection.writeDones)
    modifies connection, connection.outBuffer, connection.outBuffer.buffer
    ensures connection.Valid()
    ensures cut <= |ops| && (cut > 0 ==> ops[cut - 1].Flush?) && forall i :: cut <= i < |ops| ==> ops[i].Push?
    ensures var pushed := old(connection.writeDones) + Pushed(ops);
            var n := if cut == 0 then 0 else |old(connection.writeDones)| + |Pushed(ops[..cut])|;
            && n <= |pushed| && connection.writeDones == pushed[n..]
            && Ran(connection.fired, old(connection.fired), pushed[..n])
            && Encoded(connection.outBuffer.View().Contents(), old(connection.outBuffer.View().Contents()), pushed[..n])
  {
    hide Send, Seal, Sized, Encoded, Stream, Pushed, Ran;
    cut := 0;
    ghost var out, queue := connection.outBuffer.View().Contents(), connection.writeDones;
    ghost var done, pushed := [], queue;
    NothingEncoded(out);
    NothingRan(connection.fired);
    assert ops[..0] == [];
    for i := 0 to |ops|
      invariant connection.Valid() && QueueSized(connection.writeDones)
      invariant fresh(connection.outBuffer.buffer) || connection.outBuffer.buffer == old(connection.outBuffer.buffer)
      invariant cut <= i && (cut > 0 ==> ops[cut - 1].Flush?) && forall j :: cut <= j < i ==> ops[j].Push?
      invariant pushed == queue + Pushed(ops[..i]) == done + connection.writeDones
      invariant |done| == if cut == 0 then 0 else |queue| + |Pushed(ops[..cut])|
      invariant Ran(connection.fired, old(connection.fired), done)
      invariant Encoded(connection.outBuffer.View().Contents(), out, done)
    {
      PushedMore(ops, i);
      match ops[i] {
        case Push(m, d) =>
          connection.PushSendMessage(m, d);
          pushed := pushed + [(m, d)];
        case Flush(results) =>
          ghost var w, fired := connection.writeDones, connection.fired;
          FlushOnce(connection, results, out, done);
          RanMore(fired, old(connection.fired), done, w, connection.fired);
          done, cut := done + w, i + 1;
      }
    }
    assert ops[..|ops|] == ops;
  }

  method FlushOnce(connection: TcpConnection, results: seq<WriteResult>, ghost out: seq<Byte>, ghost done: Pending)
    requires connection.Valid() && connection.side.Client? && Again in results && QueueSized(connection.writeDones)
    requires Encoded(connection.outBuffer.View().Contents(), out, done)
    modifies connection, connection.outBuffer, connection.outBuffer.buffer
    ensures connection.Valid() && connection.writeDones == []
    ensures fresh(connection.outBuffer.buffer) || connection.outBuffer.buffer == old(connection.outBuffer.buffer)
    ensures Ran(connection.fired, old(connection.fired), old(connection.writeDones))
    ensures Encoded(connection.outBuffer.View().Contents(), out, done + old(connection.writeDones))
  {
    hide Send, Seal, Sized, Encoded, Stream;
    ghost var before, w := connection.outBuffer.View().Contents(), connection.writeDones;
    var sent, end := connection.OnWrite(results);
    ghost var after := connection.outBuffer.View().Contents();
    LoopEnds(after, results);
    QueueEncoded(after, before, w);
    EncodedMore(before, out, done, w, after);
  }
}
