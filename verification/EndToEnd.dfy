/** From request frames to fired callbacks: every registered callback once, with the reply to its own request. */
module EndToEnd {
  import opened Bytes
  import opened TcpBuffers
  import opened TinyPB
  import opened FrameStreams
  import opened Delivery
  import opened Cuts
  import opened Chunks
  import opened Dispatcher
  import opened Connections

  function Ids(ms: seq<Message>): set<seq<Byte>> {
    set m | m in ms :: m.msgId
  }

  function First(ms: seq<Message>, id: seq<Byte>): (m: Message)
    requires id in Ids(ms)
    ensures m in ms && m.msgId == id
  {
    if ms[0].msgId == id then ms[0]
    else
      assert id in Ids(ms[1..]);
      First(ms[1..], id)
  }

  // Matching.

  /** `fs` runs each callback of `dones` whose id is in `ids` exactly once, with `reply` of its id, and no other. */
  ghost predicate OnceEach(fs: seq<Firing>, dones: map<seq<Byte>, Callback>, ids: set<seq<Byte>>,
                           reply: seq<Byte> -> Message) {
    && (forall i, j :: 0 <= i < j < |fs| ==> fs[i].message.msgId != fs[j].message.msgId)
    && (forall id :: id in dones && id in ids ==> Firing(dones[id], reply(id)) in fs)
    && (forall f :: f in fs ==> var id := f.message.msgId;
                                id in dones && id in ids && f == Firing(dones[id], reply(id)))
  }

  function FirstOf(ms: seq<Message>): seq<Byte> -> Message {
    id => if id in Ids(ms) then First(ms, id) else BLANK
  }

  /** Whatever arrives: one firing for each registered id that occurs, with the first message that carries it. */
  lemma {:induction false} FiresOnceEach(dones: map<seq<Byte>, Callback>, ms: seq<Message>)
    ensures var f := FireAll(dones, ms);
            f.left == dones - Ids(ms) && OnceEach(f.firings, dones, Ids(ms), FirstOf(ms))
    decreases |ms|
  {
    hide OnceEach, FirstOf, First;
    if ms == [] {
      NoneOnceEach(dones);
    } else {
      var m, rest := ms[0], ms[1..];
      IdsCons(ms);
      assert ms == [m] + rest;
      if m.msgId in dones {
        FiresOnceEach(dones - {m.msgId}, rest);
        ConsOnceEach(dones, m, rest, FireAll(dones - {m.msgId}, rest).firings);
      } else {
        FiresOnceEach(dones, rest);
        SkipOnceEach(dones, m, rest, FireAll(dones, rest).firings);
      }
    }
  }

  lemma NoneOnceEach(dones: map<seq<Byte>, Callback>)
    ensures dones - Ids([]) == dones && OnceEach([], dones, Ids([]), FirstOf([]))
  {
  }

  lemma IdsCons(ms: seq<Message>)
    requires ms != []
    ensures Ids(ms) == {ms[0].msgId} + Ids(ms[1..])
    ensures forall id :: id in Ids(ms) && id != ms[0].msgId ==> First(ms, id) == First(ms[1..], id)
  {
    assert ms == [ms[0]] + ms[1..];
  }

  lemma ConsOnceEach(dones: map<seq<Byte>, Callback>, m: Message, rest: seq<Message>, fs: seq<Firing>)
    requires m.msgId in dones && OnceEach(fs, dones - {m.msgId}, Ids(rest), FirstOf(rest))
    ensures OnceEach([Firing(dones[m.msgId], m)] + fs, dones, Ids([m] + rest), FirstOf([m] + rest))
  {
    hide First;
    var ms := [m] + rest;
    assert ms[1..] == rest;
    IdsCons(ms);
    FirstIsHead(ms);
    var a, b := FirstOf(rest), FirstOf(ms);
    assert forall id :: id in Ids(rest) && id != m.msgId ==> a(id) == b(id);
    ConsFiring(dones, m, Ids(rest), fs, a, b);
  }

  lemma FirstIsHead(ms: seq<Message>)
    requires ms != []
    ensures FirstOf(ms)(ms[0].msgId) == ms[0]
  {
    assert ms[0].msgId in Ids(ms);
  }

  lemma ConsFiring(dones: map<seq<Byte>, Callback>, m: Message, ids: set<seq<Byte>>, fs: seq<Firing>,
                   a: seq<Byte> -> Message, b: seq<Byte> -> Message)
    requires m.msgId in dones && OnceEach(fs, dones - {m.msgId}, ids, a)
    requires b(m.msgId) == m && forall id :: id in ids && id != m.msgId ==> a(id) == b(id)
    ensures OnceEach([Firing(dones[m.msgId], m)] + fs, dones, {m.msgId} + ids, b)
  {
    var f := Firing(dones[m.msgId], m);
    var gs := [f] + fs;
    assert forall x :: x in gs ==> x == f || x in fs;
    assert gs[0] == f && forall i :: 1 <= i < |gs| ==> gs[i] == fs[i - 1] && gs[i] in fs;
    forall id | id in dones && id in {m.msgId} + ids ensures Firing(dones[id], b(id)) in gs {
      if id != m.msgId {
        assert Firing((dones - {m.msgId})[id], a(id)) in fs;
      }
    }
  }

  lemma SkipOnceEach(dones: map<seq<Byte>, Callback>, m: Message, rest: seq<Message>, fs: seq<Firing>)
    requires m.msgId !in dones && OnceEach(fs, dones, Ids(rest), FirstOf(rest))
    ensures OnceEach(fs, dones, Ids([m] + rest), FirstOf([m] + rest))
  {
    assert ([m] + rest)[1..] == rest;
    IdsCons([m] + rest);
  }

  /** Frames that come again, any number of times and in any order, fire nothing. */
  lemma RepeatsAreSilent(dones: map<seq<Byte>, Callback>, ms: seq<Message>, again: seq<Message>)
    requires Ids(again) <= Ids(ms)
    ensures var left := FireAll(dones, ms).left; FireAll(left, again) == Fired(left, [])
  {
    FiresOnceEach(dones, ms);
    NothingRegistered(FireAll(dones, ms).left, again);
  }

  lemma {:induction false} NothingRegistered(dones: map<seq<Byte>, Callback>, ms: seq<Message>)
    requires dones.Keys !! Ids(ms)
    ensures FireAll(dones, ms) == Fired(dones, [])
  {
    if ms != [] {
      IdsCons(ms);
      NothingRegistered(dones, ms[1..]);
    }
  }

  // Order.

  lemma {:induction false} FireAllConcat(dones: map<seq<Byte>, Callback>, a: seq<Message>, b: seq<Message>)
    ensures var f := FireAll(dones, a); var g := FireAll(f.left, b);
            FireAll(dones, a + b) == g.(firings := f.firings + g.firings)
    decreases |a|
  {
    if a == [] {
      assert a + b == b && [] + FireAll(dones, b).firings == FireAll(dones, b).firings;
    } else {
      var m := a[0];
      assert (a + b)[1..] == a[1..] + b;
      FireAllConcat(if m.msgId in dones then dones - {m.msgId} else dones, a[1..], b);
    }
  }

  /** The numbers below `n` with a property, in order. */
  function Places(n: nat, such: nat -> bool): (at: seq<nat>)
    ensures forall k :: 0 <= k < |at| ==> at[k] < n && such(at[k])
    ensures forall i :: 0 <= i < n && such(i) ==> i in at
    ensures forall j, k :: 0 <= j < k < |at| ==> at[j] < at[k]
  {
    if n == 0 then [] else Places(n - 1, such) + if such(n - 1) then [n - 1] else []
  }

  lemma {:induction false} SamePlaces(n: nat, a: nat -> bool, b: nat -> bool)
    requires forall i: nat :: i < n ==> a(i) == b(i)
    ensures Places(n, a) == Places(n, b)
  {
    if n > 0 {
      SamePlaces(n - 1, a, b);
    }
  }

  /** The message at a place is the first under its id, and a callback waits for it. */
  function Leads(dones: map<seq<Byte>, Callback>, ms: seq<Message>): nat -> bool {
    (i: nat) => i < |ms| && ms[i].msgId in dones && ms[i].msgId !in Ids(ms[..i])
  }

  /** The firings `fs` are those of the messages at the places `at`. */
  predicate FiredAt(dones: map<seq<Byte>, Callback>, ms: seq<Message>, fs: seq<Firing>, at: seq<nat>) {
    |fs| == |at| && forall k :: 0 <= k < |at| ==>
      at[k] < |ms| && ms[at[k]].msgId in dones && fs[k] == Firing(dones[ms[at[k]].msgId], ms[at[k]])
  }

  /** Callbacks run in the order in which the messages came, each on the message that ran it. */
  lemma {:induction false} FiresInOrder(dones: map<seq<Byte>, Callback>, ms: seq<Message>)
    ensures FiredAt(dones, ms, FireAll(dones, ms).firings, Places(|ms|, Leads(dones, ms)))
    decreases |ms|
  {
    hide OnceEach, FireAll;
    if ms == [] {
      NothingRegistered(dones, ms);
    } else {
      var n := |ms| - 1;
      FiresInOrder(dones, ms[..n]);
      FireAllConcat(dones, ms[..n], [ms[n]]);
      assert ms[..n] + [ms[n]] == ms;
      FiresOnceEach(dones, ms[..n]);
      FireOne(FireAll(dones, ms[..n]).left, ms[n]);
      LeadsStep(dones, ms, n);
      hide FiredAt, Places, Leads;
      FiredMore(dones, ms, n, FireAll(dones, ms[..n]).firings, Places(n, Leads(dones, ms[..n])));
    }
  }

  lemma FiredMore(dones: map<seq<Byte>, Callback>, ms: seq<Message>, n: nat, fs: seq<Firing>, at: seq<nat>)
    requires |ms| == n + 1 && FiredAt(dones, ms[..n], fs, at)
    ensures FiredAt(dones, ms, fs + [], at + [])
    ensures ms[n].msgId in dones ==> FiredAt(dones, ms, fs + [Firing(dones[ms[n].msgId], ms[n])], at + [n])
  {
    assert forall k :: 0 <= k < |at| ==> ms[..n][at[k]] == ms[at[k]];
  }

  lemma LeadsStep(dones: map<seq<Byte>, Callback>, ms: seq<Message>, n: nat)
    requires |ms| == n + 1
    ensures Places(|ms|, Leads(dones, ms))
            == Places(n, Leads(dones, ms[..n]))
               + if ms[n].msgId in dones && ms[n].msgId !in Ids(ms[..n]) then [n] else []
  {
    forall i: nat | i < n ensures Leads(dones, ms)(i) == Leads(dones, ms[..n])(i) {
      assert ms[..i] == ms[..n][..i];
    }
    SamePlaces(n, Leads(dones, ms), Leads(dones, ms[..n]));
  }

  lemma FireOne(dones: map<seq<Byte>, Callback>, m: Message)
    ensures FireAll(dones, [m]).firings == if m.msgId in dones then [Firing(dones[m.msgId], m)] else []
  {
    assert FireAll(dones - {m.msgId}, []).firings == [];
  }

  // Replies.

  predicate DistinctIds(requests: seq<Message>) {
    forall a, b :: a in requests && b in requests && a.msgId == b.msgId ==> a == b
  }

  /** The sealed reply to the request under `id`. */
  function ReplyTo(services: Registry, requests: seq<Message>): seq<Byte> -> Message {
    id => if id in Ids(requests) then Seal(Dispatch(services, First(requests, id)).response) else BLANK
  }

  /** `m` is, once sealed, the reply to some request. */
  ghost predicate IsReply(services: Registry, requests: seq<Message>, m: Message) {
    exists r :: r in requests && Seal(m) == Seal(Dispatch(services, r).response)
  }

  /** The request at a place has its closure reply. */
  function Replies(services: Registry, requests: seq<Message>): nat -> bool {
    (i: nat) => i < |requests| && Dispatch(services, requests[i]).sent
  }

  /** `replies` are the sealed replies to the requests at the places `at`. */
  predicate RepliedAt(services: Registry, requests: seq<Message>, replies: seq<Message>, at: seq<nat>) {
    |replies| == |at| && forall k :: 0 <= k < |at| ==>
      at[k] < |requests| && replies[k] == Seal(Dispatch(services, requests[at[k]]).response)
  }

  /** Closures reply in the order of the requests; by BatchIsReplies the batch keeps that order too. */
  lemma {:induction false} RepliesInOrder(services: Registry, requests: seq<Message>)
    ensures RepliedAt(services, requests, ClosureReplies(services, requests),
                      Places(|requests|, Replies(services, requests)))
  {
    hide Dispatch, Seal, ClosureReplies;
    if requests == [] {
      ClosureOne(services, BLANK);
    } else {
      var n := |requests| - 1;
      var before := requests[..n];
      RepliesInOrder(services, before);
      ClosuresConcat(services, before, [requests[n]]);
      assert before + [requests[n]] == requests;
      ClosureOne(services, requests[n]);
      ReplyingStep(services, requests);
      hide Places, Replies, RepliedAt;
      RepliedMore(services, requests, n, ClosureReplies(services, before), Places(n, Replies(services, before)));
    }
  }

  lemma RepliedMore(services: Registry, requests: seq<Message>, n: nat, replies: seq<Message>, at: seq<nat>)
    requires |requests| == n + 1 && RepliedAt(services, requests[..n], replies, at)
    ensures RepliedAt(services, requests, replies + [], at + [])
    ensures RepliedAt(services, requests, replies + [Seal(Dispatch(services, requests[n]).response)], at + [n])
  {
    hide Dispatch, Seal;
    assert forall k :: 0 <= k < |at| ==> requests[..n][at[k]] == requests[at[k]];
  }

  lemma ReplyingStep(services: Registry, requests: seq<Message>)
    requires requests != []
    ensures var n := |requests| - 1;
            Places(|requests|, Replies(services, requests))
            == Places(n, Replies(services, requests[..n]))
               + if Dispatch(services, requests[n]).sent then [n as nat] else []
  {
    hide Dispatch;
    SamePlaces(|requests| - 1, Replies(services, requests), Replies(services, requests[..|requests| - 1]));
  }

  lemma ClosureOne(services: Registry, request: Message)
    ensures ClosureReplies(services, []) == []
    ensures var d := Dispatch(services, request);
            ClosureReplies(services, [request]) == if d.sent then [Seal(d.response)] else []
  {
    hide Dispatch, Seal;
    assert [request][1..] == [];
  }

  lemma {:induction false} ClosuresConcat(services: Registry, a: seq<Message>, b: seq<Message>)
    ensures ClosureReplies(services, a + b) == ClosureReplies(services, a) + ClosureReplies(services, b)
  {
    hide Dispatch, Seal;
    if a == [] {
      assert a + b == b;
    } else {
      assert (a + b)[1..] == a[1..] + b;
      ClosuresConcat(services, a[1..], b);
    }
  }

  lemma {:induction false} ClosureRepliesAreReplies(services: Registry, requests: seq<Message>, m: Message)
    requires m in ClosureReplies(services, requests)
    ensures IsReply(services, requests, m)
  {
    hide Dispatch;
    var d := Dispatch(services, requests[0]);
    if d.sent && m == Seal(d.response) {
      SealTwice(d.response);
      assert requests[0] in requests;
    } else {
      ClosureRepliesAreReplies(services, requests[1..], m);
      var r :| r in requests[1..] && Seal(m) == Seal(Dispatch(services, r).response);
      assert r in requests;
    }
  }

  lemma SealTwice(m: Message)
    ensures Seal(Seal(m)) == Seal(m)
  {
  }

  lemma BatchIsReplies(services: Registry, requests: seq<Message>, i: nat)
    requires i < |requests|
    ensures Seal(Batch(services, requests)[i]) == Seal(Dispatch(services, requests[i]).response)
  {
    hide Dispatch;
    SealTwice(Dispatch(services, requests[i]).response);
  }

  /** The frames a server sends for a batch of requests. */
  function SentFor(services: Registry, requests: seq<Message>): seq<Message> {
    ClosureReplies(services, requests) + Batch(services, requests)
  }

  lemma SentAreReplies(services: Registry, requests: seq<Message>, m: Message)
    requires m in SentFor(services, requests)
    ensures IsReply(services, requests, m)
  {
    hide Dispatch, Seal;
    if m in ClosureReplies(services, requests) {
      ClosureRepliesAreReplies(services, requests, m);
    } else {
      var i :| 0 <= i < |requests| && Batch(services, requests)[i] == m;
      BatchIsReplies(services, requests, i);
      assert requests[i] in requests;
    }
  }

  // How many frames a batch of requests brings about, and how many of them report an error.

  predicate NotTaken(fate: Fate) {
    fate.Nameless? || fate.NoService? || fate.NoMethod? || fate.NotParsed?
  }

  predicate IsSilent(fate: Fate) {
    fate.Silent?
  }

  predicate IsReplied(fate: Fate) {
    fate.Replied?
  }

  predicate IsGarbled(fate: Fate) {
    fate.Garbled?
  }

  /** The number of requests with such a fate. */
  function Tally(services: Registry, requests: seq<Message>, such: Fate -> bool): nat
    decreases |requests|
  {
    if requests == [] then 0
    else (if such(FateOf(services, requests[0])) then 1 else 0) + Tally(services, requests[1..], such)
  }

  function ErrorsIn(ms: seq<Message>): nat {
    if ms == [] then 0 else (if ms[0].errCode != 0 then 1 else 0) + ErrorsIn(ms[1..])
  }

  lemma {:induction false} ErrorsConcat(a: seq<Message>, b: seq<Message>)
    ensures ErrorsIn(a + b) == ErrorsIn(a) + ErrorsIn(b)
  {
    if a == [] {
      assert a + b == b;
    } else {
      assert (a + b)[1..] == a[1..] + b;
      ErrorsConcat(a[1..], b);
    }
  }

  lemma FateShows(services: Registry, request: Message)
    ensures var d, fate := Dispatch(services, request), FateOf(services, request);
            && (d.sent <==> IsReplied(fate) || IsGarbled(fate))
            && (d.response.errCode != 0 <==> NotTaken(fate) || IsGarbled(fate))
            && Response(services, request).errCode == Seal(d.response).errCode == d.response.errCode
  {
    hide Ascii, FateOf;
  }

  /** A batch brings about a frame for each request and one more for each closure that runs. Errors are reported
      once for a request that no method takes and twice for a response that does not serialise; a dropped closure
      goes out as a success. */
  lemma {:induction false} FramesAndErrors(services: Registry, requests: seq<Message>)
    ensures var sent := SentFor(services, requests);
            var replied, garbled := Tally(services, requests, IsReplied), Tally(services, requests, IsGarbled);
            && |sent| == |requests| + replied + garbled
            && ErrorsIn(sent) == Tally(services, requests, NotTaken) + 2 * garbled
            && |requests| == Tally(services, requests, NotTaken) + Tally(services, requests, IsSilent)
                             + replied + garbled
  {
    hide Dispatch, ClosureReplies, Batch, Tally, ErrorsIn;
    ErrorsConcat(ClosureReplies(services, requests), Batch(services, requests));
    ClosuresCount(services, requests);
    BatchCounts(services, requests);
  }

  lemma {:induction false} ClosuresCount(services: Registry, requests: seq<Message>)
    ensures var replies := ClosureReplies(services, requests);
            var replied, garbled := Tally(services, requests, IsReplied), Tally(services, requests, IsGarbled);
            |replies| == replied + garbled && ErrorsIn(replies) == garbled
  {
    hide Dispatch, FateOf;
    if requests != [] {
      var d, rest := Dispatch(services, requests[0]), ClosureReplies(services, requests[1..]);
      FateShows(services, requests[0]);
      ClosuresCount(services, requests[1..]);
      assert d.sent ==> ([Seal(d.response)] + rest)[1..] == rest;
      assert !d.sent ==> [] + rest == rest;
    }
  }

  lemma {:induction false} BatchCounts(services: Registry, requests: seq<Message>)
    ensures ErrorsIn(Batch(services, requests))
            == Tally(services, requests, NotTaken) + Tally(services, requests, IsGarbled)
    ensures |requests| == Tally(services, requests, NotTaken) + Tally(services, requests, IsSilent)
                          + Tally(services, requests, IsReplied) + Tally(services, requests, IsGarbled)
  {
    hide Dispatch, FateOf, Response;
    if requests != [] {
      FateShows(services, requests[0]);
      BatchCounts(services, requests[1..]);
      assert Batch(services, requests)[1..] == Batch(services, requests[1..]);
      assert Batch(services, requests)[0] == Response(services, requests[0]);
    }
  }

  predicate AllReady(requests: seq<Message>) {
    forall r :: r in requests ==> Encodable(r) && r.msgId != []
  }

  /** A reply has the id of its request, and sealing keeps it within the limits. */
  lemma ReplyFacts(services: Registry, requests: seq<Message>, m: Message)
    requires AllReady(requests) && RepliesSized(services, requests) && DistinctIds(requests)
    requires IsReply(services, requests, m)
    ensures Seal(m).msgId in Ids(requests) && Seal(m) == ReplyTo(services, requests)(Seal(m).msgId) && Encodable(m)
  {
    hide Dispatch, CString;
    var r :| r in requests && Seal(m) == Seal(Dispatch(services, r).response);
    ReplyKeepsIdentity(services, r);
    SealKeepsLimits(m, Dispatch(services, r).response);
    assert r.msgId in Ids(requests) && First(requests, r.msgId) == r;
  }

  lemma SealKeepsLimits(m: Message, reply: Message)
    requires Seal(m) == Seal(reply) && Encodable(reply) && reply.msgId != []
    ensures Encodable(m) && Seal(m).msgId == reply.msgId
  {
    assert Id(m) == Seal(m).msgId && m.methodName == Seal(m).methodName && m.errInfo == Seal(m).errInfo;
    assert FrameLen(m) == Seal(m).pkLen;
  }

  // The whole way.

  /** The server answers a stream of requests by putting behind its old frames the closure replies and then
      the whole batch again. */
  lemma ServerOutput(services: Registry, requests: seq<Message>, inBuf: Buf, outBuf: Buf, olds: seq<Message>)
    requires inBuf.Valid() && outBuf.Valid() && inBuf.write < |inBuf.bytes| <= INT_MAX
    requires AllEncodable(requests) && inBuf.Contents() == Stream(requests)
    requires RepliesSized(services, SealAll(requests)) && AllSized(olds) && outBuf.Contents() == Stream(olds)
    ensures var d := Decode(inBuf); var frames := olds + SentFor(services, SealAll(requests));
            && d.outcome == Finished && d.messages == SealAll(requests) && AllSized(frames)
            && Served(services, d.messages, outBuf).Contents() == Stream(frames)
  {
    hide Decode, Frame, Encodable, Dispatch, ClosureReplies, Batch, SealAll;
    EncodableAreSized(requests);
    assert Stream(requests) + [] == Stream(requests);
    DecodeChunk(inBuf, requests, []);
    ServedContents(services, SealAll(requests), outBuf, olds);
  }

  lemma ServedContents(services: Registry, requests: seq<Message>, outBuf: Buf, olds: seq<Message>)
    requires outBuf.Valid() && RepliesSized(services, requests) && AllSized(olds) && outBuf.Contents() == Stream(olds)
    ensures var frames := olds + SentFor(services, requests);
            AllSized(frames) && Served(services, requests, outBuf).Contents() == Stream(frames)
  {
    hide Frame, Dispatch, ClosureReplies, Batch, AppendAll, Stream, RepliesSized;
    var c, b := ClosureReplies(services, requests), Batch(services, requests);
    RepliesAreSized(services, requests);
    StreamConcat(c, b);
    StreamConcat(olds, c + b);
    assert (Stream(olds) + Stream(c)) + Stream(b) == Stream(olds) + (Stream(c) + Stream(b));
  }

  lemma {:induction false} StreamConcat(a: seq<Message>, b: seq<Message>)
    requires AllSized(a) && AllSized(b)
    ensures AllSized(a + b) && Stream(a + b) == Stream(a) + Stream(b)
  {
    hide Frame, Sized;
    if a == [] {
      assert a + b == b;
    } else {
      assert (a + b)[1..] == a[1..] + b;
      StreamConcat(a[1..], b);
    }
  }

  /** `frames` are frames that the server may have sent, with each reply of the batch among them; no callback waits
      for what was sent before. */
  predicate Answers(services: Registry, requests: seq<Message>, olds: seq<Message>, frames: seq<Message>,
                    dones: map<seq<Byte>, Callback>) {
    && AllReady(requests) && RepliesSized(services, requests) && DistinctIds(requests)
    && AllEncodable(olds) && dones.Keys !! Ids(SealAll(olds))
    && (forall m :: m in frames ==> m in olds || m in SentFor(services, requests))
    && (forall m :: m in Batch(services, requests) ==> m in frames)
  }

  /** Decoded in any order and any number of times, such frames fire each registered callback exactly once, with the
      reply to its own request. */
  lemma AnswersFire(services: Registry, requests: seq<Message>, olds: seq<Message>, frames: seq<Message>,
                    dones: map<seq<Byte>, Callback>)
    requires Answers(services, requests, olds, frames, dones)
    ensures AllEncodable(frames) && AllSized(frames)
    ensures var f := FireAll(dones, SealAll(frames));
            f.left == dones - Ids(requests) && OnceEach(f.firings, dones, Ids(requests), ReplyTo(services, requests))
  {
    hide Frame, Encodable, Dispatch, SentFor, Batch, Seal, OnceEach, FirstOf, ReplyTo;
    forall m | m in frames ensures Encodable(m) {
      if m !in olds {
        SentAreReplies(services, requests, m);
        ReplyFacts(services, requests, m);
      }
    }
    EncodableAreSized(frames);
    FiresOnceEach(dones, SealAll(frames));
    GotAreReplies(services, requests, olds, frames, dones);
    SameOnceEach(services, requests, SealAll(frames), dones);
  }

  lemma SameOnceEach(services: Registry, requests: seq<Message>, got: seq<Message>, dones: map<seq<Byte>, Callback>)
    requires var f := FireAll(dones, got); f.left == dones - Ids(got)
    requires OnceEach(FireAll(dones, got).firings, dones, Ids(got), FirstOf(got))
    requires forall id :: id in dones ==> (id in Ids(got) <==> id in Ids(requests))
    requires forall id :: id in dones && id in Ids(got) ==> First(got, id) == ReplyTo(services, requests)(id)
    ensures var f := FireAll(dones, got);
            f.left == dones - Ids(requests) && OnceEach(f.firings, dones, Ids(requests), ReplyTo(services, requests))
  {
    hide FireAll, ReplyTo, First, Ids;
  }

  /** The client side, all frames decoded at once. */
  lemma ClientFires(services: Registry, requests: seq<Message>, olds: seq<Message>, inBuf: Buf, frames: seq<Message>,
                    dones: map<seq<Byte>, Callback>)
    requires Answers(services, requests, olds, frames, dones) && AllSized(frames)
    requires inBuf.Valid() && inBuf.write < |inBuf.bytes| <= INT_MAX && inBuf.Contents() == Stream(frames)
    ensures var d := Decode(inBuf); var f := FireAll(dones, d.messages);
            && d.outcome == Finished && f.left == dones - Ids(requests)
            && OnceEach(f.firings, dones, Ids(requests), ReplyTo(services, requests))
  {
    hide Decode, Frame, Encodable, Answers, OnceEach, ReplyTo, Stream, FireAll, SealAll, Ids;
    AnswersFire(services, requests, olds, frames, dones);
    assert Stream(frames) + [] == Stream(frames);
    NothingIsQuiet(|inBuf.bytes|);
    DecodeChunk(inBuf, frames, []);
  }

  lemma GotAreReplies(services: Registry, requests: seq<Message>, olds: seq<Message>, frames: seq<Message>,
                      dones: map<seq<Byte>, Callback>)
    requires AllReady(requests) && RepliesSized(services, requests) && DistinctIds(requests)
    requires dones.Keys !! Ids(SealAll(olds))
    requires forall m :: m in frames ==> m in olds || m in SentFor(services, requests)
    requires forall m :: m in Batch(services, requests) ==> m in frames
    ensures var got := SealAll(frames);
            && (forall id :: id in dones ==> (id in Ids(got) <==> id in Ids(requests)))
            && (forall id :: id in dones && id in Ids(got) ==> First(got, id) == ReplyTo(services, requests)(id))
  {
    hide Dispatch, SentFor, Batch, Seal, Encodable, First;
    var got := SealAll(frames);
    forall id | id in dones && id in Ids(got)
      ensures id in Ids(requests) && First(got, id) == ReplyTo(services, requests)(id)
    {
      GotIsReply(services, requests, olds, frames, First(got, id), id, dones);
    }
    forall id | id in dones && id in Ids(requests) ensures id in Ids(got) {
      var r :| r in requests && r.msgId == id;
      RequestIsAnswered(services, requests, frames, r);
    }
  }

  lemma GotIsReply(services: Registry, requests: seq<Message>, olds: seq<Message>, frames: seq<Message>, g: Message,
                   id: seq<Byte>, dones: map<seq<Byte>, Callback>)
    requires AllReady(requests) && RepliesSized(services, requests) && DistinctIds(requests)
    requires dones.Keys !! Ids(SealAll(olds)) && id in dones && g.msgId == id
    requires forall m :: m in frames ==> m in olds || m in SentFor(services, requests)
    requires g in SealAll(frames)
    ensures id in Ids(requests) && g == ReplyTo(services, requests)(id)
  {
    hide Dispatch, SentFor, Seal, Encodable;
    var i :| 0 <= i < |frames| && g == Seal(frames[i]);
    var m := frames[i];
    if m in olds {
      SealedAmong(olds, m);
    } else {
      SentAreReplies(services, requests, m);
      ReplyFacts(services, requests, m);
    }
  }

  lemma SealedAmong(ms: seq<Message>, m: Message)
    requires m in ms
    ensures Seal(m) in SealAll(ms) && Seal(m).msgId in Ids(SealAll(ms))
  {
    var j :| 0 <= j < |ms| && ms[j] == m;
    assert SealAll(ms)[j] == Seal(m);
  }

  lemma RequestIsAnswered(services: Registry, requests: seq<Message>, frames: seq<Message>, r: Message)
    requires AllReady(requests) && RepliesSized(services, requests) && r in requests
    requires forall m :: m in Batch(services, requests) ==> m in frames
    ensures r.msgId in Ids(SealAll(frames))
  {
    hide Dispatch, Encodable;
    var i :| 0 <= i < |requests| && requests[i] == r;
    BatchIsReplies(services, requests, i);
    ReplyKeepsIdentity(services, r);
    var m := Batch(services, requests)[i];
    assert m in Batch(services, requests);
    SealedAmong(frames, m);
  }

  function Repeat<T>(s: seq<T>, n: nat): (r: seq<T>)
    ensures |r| == n * |s|
  {
    if n == 0 then [] else s + Repeat(s, n - 1)
  }

  lemma {:induction false} RepeatStream(frames: seq<Message>, n: nat)
    requires AllSized(frames)
    ensures var r := Repeat(frames, n);
            && AllSized(r) && Stream(r) == Repeat(Stream(frames), n)
            && (forall m :: m in r ==> m in frames) && (n > 0 ==> forall m :: m in frames ==> m in r)
  {
    hide Frame, Sized;
    if n > 0 {
      RepeatStream(frames, n - 1);
      StreamConcat(frames, Repeat(frames, n - 1));
    }
  }

  /** Each callback that waits for a request whose method returns `data` is run by `fs` with `data`, under the id and
      name of the request and with no error. */
  ghost predicate ResultsArrive(services: Registry, requests: seq<Message>, fs: seq<Firing>,
                                dones: map<seq<Byte>, Callback>) {
    forall r, s, n :: r in requests && r.msgId in dones && IsCallOf(services, r, s, n) ==>
      match services[s][n].call(r.pbData)
      case Serialized(data) =>
        exists f :: f in fs && f.callback == dones[r.msgId] && Carries(f.message, r, data, 0, "")
      case _ => true
  }

  /** `request` is a call of the registered method `n` of service `s`, with a body that it parses. */
  predicate IsCallOf(services: Registry, request: Message, s: seq<Byte>, n: seq<Byte>) {
    && DOT !in s && request.methodName == s + [DOT] + n
    && s in services && n in services[s] && services[s][n].parses(request.pbData)
  }

  lemma OnceEachBringsResults(services: Registry, requests: seq<Message>, fs: seq<Firing>,
                              dones: map<seq<Byte>, Callback>)
    requires DistinctIds(requests) && forall r :: r in requests ==> r.msgId != []
    requires OnceEach(fs, dones, Ids(requests), ReplyTo(services, requests))
    ensures ResultsArrive(services, requests, fs, dones)
  {
    hide Dispatch, FrameLen, Ascii;
    forall r, s, n | r in requests && r.msgId in dones && IsCallOf(services, r, s, n)
      ensures match services[s][n].call(r.pbData)
              case Serialized(data) =>
                exists f :: f in fs && f.callback == dones[r.msgId] && Carries(f.message, r, data, 0, "")
              case _ => true
    {
      var id := r.msgId;
      assert id in Ids(requests) && First(requests, id) == r;
      NamedReply(services, r, s, n);
      assert Firing(dones[id], ReplyTo(services, requests)(id)) in fs;
    }
  }

  /** End to end: a stream of requests with distinct ids goes through the server; all that the out buffer then
      holds, old frames included, reaches the client one or more times over; each callback registered under the id of
      a request fires exactly once, with the reply to that request, and no callback is left for those ids. */
  lemma RequestToCallback(services: Registry, requests: seq<Message>, serverIn: Buf, serverOut: Buf, olds: seq<Message>,
                          clientIn: Buf, copies: nat, dones: map<seq<Byte>, Callback>)
    requires AllEncodable(requests) && DistinctIds(SealAll(requests)) && RepliesSized(services, SealAll(requests))
    requires serverIn.Valid() && serverIn.write < |serverIn.bytes| <= INT_MAX && serverIn.Contents() == Stream(requests)
    requires AllEncodable(olds) && serverOut.Valid() && serverOut.Contents() == Stream(olds)
    requires dones.Keys !! Ids(SealAll(olds)) && copies > 0
    requires clientIn.Valid() && clientIn.write < |clientIn.bytes| <= INT_MAX
    requires clientIn.Contents() == Repeat(Served(services, SealAll(requests), serverOut).Contents(), copies)
    ensures var got := Decode(serverIn); var d := Decode(clientIn); var f := FireAll(dones, d.messages);
            var rs := SealAll(requests);
            && got.outcome == d.outcome == Finished && got.messages == rs
            && f.left == dones - Ids(rs) && OnceEach(f.firings, dones, Ids(rs), ReplyTo(services, rs))
            && ResultsArrive(services, rs, f.firings, dones)
  {
    hide Decode, Frame, Encodable, Dispatch, SentFor, Served, Stream, Batch;
    hide SealAll, OnceEach, RepliesSized, DistinctIds, ResultsArrive;
    EncodableAreSized(olds);
    ServerOutput(services, requests, serverIn, serverOut, olds);
    var rs := SealAll(requests);
    var frames := olds + SentFor(services, rs);
    RepeatStream(frames, copies);
    ServedAnswer(services, requests, olds, copies, dones);
    ClientFires(services, rs, olds, clientIn, Repeat(frames, copies), dones);
    SealedAreReady(requests);
    OnceEachBringsResults(services, rs, FireAll(dones, Decode(clientIn).messages).firings, dones);
  }

  /** What the server's out buffer holds then, any number of times over, answers the requests. */
  lemma ServedAnswer(services: Registry, requests: seq<Message>, olds: seq<Message>, copies: nat,
                     dones: map<seq<Byte>, Callback>)
    requires AllEncodable(requests) && DistinctIds(SealAll(requests)) && RepliesSized(services, SealAll(requests))
    requires AllEncodable(olds) && dones.Keys !! Ids(SealAll(olds)) && copies > 0
    requires AllSized(olds + SentFor(services, SealAll(requests)))
    ensures var rs := SealAll(requests);
            Answers(services, rs, olds, Repeat(olds + SentFor(services, rs), copies), dones)
  {
    hide Frame, Encodable, Dispatch, SentFor, Stream, Batch, SealAll, RepliesSized, DistinctIds, Ids, Sized;
    var rs := SealAll(requests);
    RepeatStream(olds + SentFor(services, rs), copies);
    SealedAreReady(requests);
    BatchIsSent(services, rs);
  }

  lemma SealedAreReady(requests: seq<Message>)
    requires AllEncodable(requests)
    ensures AllReady(SealAll(requests))
  {
    forall r | r in SealAll(requests) ensures Encodable(r) && r.msgId != [] {
      var i :| 0 <= i < |requests| && r == Seal(requests[i]);
      assert requests[i] in requests;
      assert Id(r) == Id(requests[i]) && FrameLen(r) == FrameLen(requests[i]);
    }
  }

  lemma BatchIsSent(services: Registry, requests: seq<Message>)
    ensures forall m :: m in Batch(services, requests) ==> m in SentFor(services, requests)
  {
  }

  // Sending without consuming.

  /** The frames that go out when each of `rounds` is appended to the out buffer and everything there is sent. */
  function SentOver(held: seq<Message>, rounds: seq<seq<Message>>): seq<Message>
    decreases |rounds|
  {
    if rounds == [] then []
    else (held + rounds[0]) + SentOver(held + rounds[0], rounds[1..])
  }

  predicate RoundsSized(rounds: seq<seq<Message>>) {
    forall round :: round in rounds ==> AllSized(round)
  }

  /** The bytes that go out when each of `rounds` is encoded into the out buffer and all that is readable is sent. */
  function BytesOver(b: Buf, rounds: seq<seq<Message>>): seq<Byte>
    requires b.Valid() && RoundsSized(rounds)
    decreases |rounds|
  {
    if rounds == [] then []
    else
      var out := AppendAll(b, rounds[0]);
      out.Contents() + BytesOver(out, rounds[1..])
  }

  /** Those bytes are the frames of `SentOver`, one behind the other. */
  lemma {:induction false} SentOverIsSent(b: Buf, held: seq<Message>, rounds: seq<seq<Message>>)
    requires b.Valid() && AllSized(held) && RoundsSized(rounds) && b.Contents() == Stream(held)
    ensures AllSized(SentOver(held, rounds)) && BytesOver(b, rounds) == Stream(SentOver(held, rounds))
    decreases |rounds|
  {
    hide Frame, Sized, AppendAll;
    if rounds == [] {
    } else {
      hide Stream;
      StreamConcat(held, rounds[0]);
      var h := held + rounds[0];
      SentOverIsSent(AppendAll(b, rounds[0]), h, rounds[1..]);
      StreamConcat(h, SentOver(h, rounds[1..]));
    }
  }

  method ReplyAndWrite(connection: TcpConnection, round: seq<Message>) returns (sent: seq<Byte>)
    requires connection.Valid() && connection.side.Server? && AllSized(round)
    modifies connection, connection.outBuffer, connection.outBuffer.buffer
    ensures var out := connection.outBuffer;
            connection.Valid() && (fresh(out.buffer) || out.buffer == old(out.buffer))
            && out.View() == AppendAll(old(out.View()), round) && sent == out.View().Contents()
  {
    hide Frame, Sized, AppendAll, Send;
    var _ := connection.Reply(round);
    WholeWrite(connection.outBuffer.View().Contents());
    var size := connection.outBuffer.ReadAble();
    var end;
    sent, end := connection.OnWrite([Wrote(size)]);
  }

  /** The connection's own calls: when a reply of each round is followed by a write that the socket takes whole, the
      bytes on the wire are those frames. */
  method ReplyRounds(connection: TcpConnection, rounds: seq<seq<Message>>, ghost held: seq<Message>)
    returns (sent: seq<Byte>)
    requires connection.Valid() && connection.side.Server? && RoundsSized(rounds) && AllSized(held)
    requires connection.outBuffer.View().Contents() == Stream(held)
    modifies connection, connection.outBuffer, connection.outBuffer.buffer
    ensures AllSized(SentOver(held, rounds)) && sent == Stream(SentOver(held, rounds))
  {
    hide Frame, Sized, AppendAll, Stream, Send, BytesOver, RoundsSized, SentOver, AllSized;
    ghost var goal := BytesOver(connection.outBuffer.View(), rounds);
    SentOverIsSent(connection.outBuffer.View(), held, rounds);
    sent := [];
    for i := 0 to |rounds|
      invariant connection.Valid() && RoundsSized(rounds[i..])
      invariant fresh(connection.outBuffer.buffer) || connection.outBuffer.buffer == old(connection.outBuffer.buffer)
      invariant sent + BytesOver(connection.outBuffer.View(), rounds[i..]) == goal
    {
      assert rounds[i..][0] == rounds[i] && rounds[i..][1..] == rounds[i + 1..];
      NextBytes(connection.outBuffer.View(), rounds[i..]);
      var bytes := ReplyAndWrite(connection, rounds[i]);
      ghost var more := BytesOver(connection.outBuffer.View(), rounds[i + 1..]);
      assert sent + (bytes + more) == sent + bytes + more;
      sent := sent + bytes;
    }
    LastBytes(connection.outBuffer.View(), rounds[|rounds|..]);
  }

  lemma NextBytes(b: Buf, rounds: seq<seq<Message>>)
    requires b.Valid() && rounds != [] && RoundsSized(rounds)
    ensures AllSized(rounds[0]) && RoundsSized(rounds[1..])
    ensures var out := AppendAll(b, rounds[0]);
            BytesOver(b, rounds) == out.Contents() + BytesOver(out, rounds[1..])
  {
    hide AllSized, AppendAll;
  }

  lemma LastBytes(b: Buf, rounds: seq<seq<Message>>)
    requires b.Valid() && rounds == []
    ensures RoundsSized(rounds) && BytesOver(b, rounds) == []
  {
  }

  lemma WholeWrite(contents: seq<Byte>)
    ensures Send(contents, [Wrote(|contents|)]) == Sending(contents, All)
  {
  }

  function CopiesOf(m: Message, rounds: seq<seq<Message>>): nat {
    if rounds == [] then 0 else |rounds| * multiset(rounds[0])[m] + CopiesOf(m, rounds[1..])
  }

  /** A frame of round i of n goes out n - i times: what `onWrite` sends is never consumed. */
  lemma {:induction false} OldFramesGoOutAgain(held: seq<Message>, rounds: seq<seq<Message>>, m: Message)
    ensures multiset(SentOver(held, rounds))[m] == |rounds| * multiset(held)[m] + CopiesOf(m, rounds)
    decreases |rounds|
  {
    if rounds != [] {
      var h := held + rounds[0];
      OldFramesGoOutAgain(h, rounds[1..], m);
      CountConcat(held, rounds[0], m);
      CountConcat(h, SentOver(h, rounds[1..]), m);
      Distribute(|rounds| - 1, multiset(held)[m], multiset(rounds[0])[m]);
    }
  }

  lemma CountConcat(a: seq<Message>, b: seq<Message>, m: Message)
    ensures multiset(a + b)[m] == multiset(a)[m] + multiset(b)[m]
  {
  }

  lemma Distribute(n: nat, x: nat, y: nat)
    ensures (x + y) + n * (x + y) == (n + 1) * x + (n + 1) * y
  {
  }
}
