/** The promises of the wire path: stream round trip and resynchronisation after noise. */
module Delivery {
  import opened Bytes
  import opened TcpBuffers
  import opened TinyPB
  import opened FrameStreams

  /** Decoding what was encoded into a drained buffer gives the same messages back and drains it, exactly when
      the last frame ends below the capacity or an earlier frame made the buffer compact; otherwise it never ends. */
  lemma StreamRoundTrip(b: Buf, ms: seq<Message>)
    requires b.Valid() && b.ReadAble() == 0 && AllEncodable(ms)
    requires |AppendAll(b, ms).bytes| <= INT_MAX
    ensures var b' := AppendAll(b, ms); var d := Decode(b');
            if RoomToFinish(b', ms)
            then d.outcome == Finished && d.messages == SealAll(ms) && d.rest.ReadAble() == 0
            else d.outcome == Diverges
  {
    hide Frame, AppendAll, RoomToFinish, Encodable, Decode;
    EncodableAreSized(ms);
    var b' := AppendAll(b, ms);
    assert b'.Contents() == [] + Stream(ms) + [];
    NoLag(ms);
    DecodeStream(b', [], ms, []);
  }

  /** There may be no room: a single frame written into a new buffer of just its length is decoded for ever. */
  lemma ExactFitDiverges(m: Message)
    requires Encodable(m)
    ensures var b := AppendAll(Empty(FrameLen(m)), [m]); !RoomToFinish(b, [m]) && Decode(b).outcome == Diverges
  {
    hide Frame, Encodable, Decode, FrameLen;
    EncodableIsSized(m);
    ExactFit(m);
    StreamRoundTrip(Empty(FrameLen(m)), [m]);
  }

  lemma ExactFit(m: Message)
    requires Sized(m)
    ensures var b := AppendAll(Empty(FrameLen(m)), [m]);
            |b.bytes| == FrameLen(m) && !RoomToFinish(b, [m])
  {
    hide Frame;
    var b := Empty(FrameLen(m));
    assert AppendAll(b, [m]) == AppendAll(Append(b, Frame(m)), []) == Append(b, Frame(m));
  }

  lemma {:induction false} NoLag(ms: seq<Message>)
    requires AllSized(ms)
    ensures LagClean([], ms) && FinalLag([], ms) == []
  {
    if ms != [] {
      NoLag(ms[1..]);
    }
  }

  // Resynchronisation.

  lemma FrameEnd(m: Message)
    requires Sized(m)
    ensures Frame(m)[FrameLen(m) - 5..] == [0, 0, 0, 1, PB_END]
  {
    hide NetBytes, Frame, BlockAt;
    assert At(Frame(m), 0, Frame(m));
    FrameLaidOut(Frame(m), 0, m);
    OneInNetOrder();
  }

  lemma OneInNetOrder()
    ensures NetBytes(1) == [0, 0, 0, 1]
  {
    assert Digits(1, 4) == Digits(0, 3) + [1];
    assert Digits(0, 3) == Digits(0, 2) + [0];
    assert Digits(0, 2) == Digits(0, 1) + [0];
    assert Digits(0, 1) == Digits(0, 0) + [0];
  }

  lemma ZeroInNetOrder()
    ensures NetBytes(0) == [0, 0, 0, 0]
  {
    assert Digits(0, 3) == Digits(0, 2) + [0];
    assert Digits(0, 2) == Digits(0, 1) + [0];
    assert Digits(0, 1) == Digits(0, 0) + [0];
  }

  /** Any end of a frame of up to six bytes is something the scanner runs past: even when its first byte is
      a start byte, the four zero-zero-zero-one bytes after it lead back to that byte. */
  lemma FrameEndIsQuiet(m: Message, k: nat)
    requires Sized(m) && k <= 6
    ensures QuietLag(Frame(m)[FrameLen(m) - k..])
  {
    hide Frame, QuietLag;
    FrameEnd(m);
    EndIsQuiet(Frame(m), k);
  }

  lemma EndIsQuiet(f: seq<Byte>, k: nat)
    requires |f| >= 6 && f[|f| - 5..] == [0, 0, 0, 1, PB_END] && k <= 6
    ensures QuietLag(f[|f| - k..])
  {
    hide GetInt32;
    var lag, end := f[|f| - k..], f[|f| - 5..];
    assert forall i :: 0 <= i < k && k - i <= 5 ==> lag[i] == f[|f| - k + i] == end[5 - k + i];
    assert forall i :: 0 <= i < 5 ==> end[i] != PB_START;
    if k == 6 {
      assert lag[1..5] == end[0..4] == [0, 0, 0, 1];
      OneInNetOrder();
      NetRoundTrip(1, lag, 1);
    }
  }

  lemma {:induction false} ShortLagIsClean(lag: seq<Byte>, ms: seq<Message>)
    requires AllSized(ms) && |lag| <= 6 && QuietLag(lag)
    ensures LagClean(lag, ms)
    decreases |ms|
  {
    hide Frame, QuietLag;
    if ms != [] {
      var m := ms[0];
      assert (lag + Frame(m))[FrameLen(m)..] == Frame(m)[FrameLen(m) - |lag|..];
      FrameEndIsQuiet(m, |lag|);
      ShortLagIsClean(Lag(lag, m), ms[1..]);
    }
  }

  /** One to six bytes of noise without a start byte in front of a stream cost nothing: every message arrives,
      and the read index stays behind the frames by the length of the noise. */
  lemma Resynchronises(b: Buf, noise: seq<Byte>, ms: seq<Message>)
    requires b.Valid() && |b.bytes| <= INT_MAX && AllEncodable(ms)
    requires 1 <= |noise| <= 6 && NoStart(noise) && b.Contents() == noise + Stream(ms)
    ensures var d := Decode(b);
            d.outcome == Finished && d.messages == SealAll(ms) && d.rest.ReadAble() == |noise|
  {
    hide Frame, Encodable, Decode;
    EncodableAreSized(ms);
    assert noise + Stream(ms) + [] == noise + Stream(ms);
    QuietNoise(noise);
    ShortLagIsClean(noise, ms);
    DecodeStream(b, noise, ms, []);
  }

  // Seven bytes and more.

  /** The data of a frame that ends in an end byte, a start byte and `n - 6` zeros. */
  predicate EndsInNothing(m: Message, n: nat) {
    n >= 7 && |m.pbData| >= n - 4 && m.pbData[|m.pbData| - (n - 4)..] == [PB_END, PB_START] + Zeros(n - 6)
  }

  /** Behind seven or more bytes of noise such a frame leaves its own last bytes in front of the scanner, and they
      read as a frame of length zero: found over and over, or, once the buffer has been compacted, ending at
      index -1. */
  lemma LongNoiseFails(b: Buf, noise: seq<Byte>, m: Message)
    requires b.Valid() && |b.bytes| <= INT_MAX && Encodable(m) && NoStart(noise) && EndsInNothing(m, |noise|)
    requires b.Contents() == noise + Frame(m)
    ensures Decode(b).outcome == if b.read + FrameLen(m) < |b.bytes| / 3 then Diverges else Undefined
    ensures Decode(b).messages == [Seal(m)]
  {
    hide *;
    EncodableIsSized(m);
    NoiseEnd(m, |noise|);
    FrameBehindNoise(b, noise, m);
    NoiseShifts(noise, Frame(m));
    NothingBehindFrame(b, FrameLen(m));
    OneFrameThenStop(b, m, if b.read + FrameLen(m) < |b.bytes| / 3 then Diverges else Undefined);
  }

  /** A frame behind noise is taken, and the index moves by its length. */
  lemma FrameBehindNoise(b: Buf, noise: seq<Byte>, m: Message)
    requires b.Valid() && |b.bytes| <= INT_MAX && Encodable(m) && NoStart(noise) && noise != []
    requires b.Contents() == noise + Frame(m)
    ensures FrameLen(m) < b.ReadAble() && b.read + FrameLen(m) < |b.bytes|
    ensures DecodePass(b) == More([Seal(m)], MoveRead(b, FrameLen(m)))
  {
    hide Frame, Encodable, QuietLag, Seal, MoveRead, DecodePass, FrameLen;
    assert noise + Frame(m) == noise + (Frame(m) + []);
    QuietNoise(noise);
    PassTakesFrame(b, noise, m, []);
  }

  lemma OneFrameThenStop(b: Buf, m: Message, end: Outcome)
    requires b.Valid() && FrameLen(m) < b.ReadAble() && !end.Rewinds?
    requires DecodePass(b) == More([Seal(m)], MoveRead(b, FrameLen(m)))
    requires DecodePass(MoveRead(b, FrameLen(m))) == Stop(end)
    ensures Decode(b).outcome == end && Decode(b).messages == [Seal(m)]
  {
    hide DecodePass, Decode, MoveRead, Seal, FrameLen;
    DecodeUnfolds(b);
    DecodeUnfolds(MoveRead(b, FrameLen(m)));
  }

  lemma QuietNoise(noise: seq<Byte>)
    requires NoStart(noise)
    ensures QuietLag(noise)
  {
  }

  /** `c` holds, from `at` on, an end byte, a start byte and a length field of four zeros. */
  predicate NothingAt(c: seq<Byte>, at: nat) {
    at + 6 <= |c| && c[at] == PB_END && c[at + 1] == PB_START && c[at + 2..at + 6] == [0, 0, 0, 0]
  }

  lemma NoiseEnd(m: Message, n: nat)
    requires Sized(m) && EndsInNothing(m, n)
    ensures 7 <= n < FrameLen(m) && NothingAt(Frame(m), FrameLen(m) - n - 1)
  {
    hide NetBytes, Frame, BlockAt;
    var f := Frame(m);
    assert At(f, 0, f);
    FrameLaidOut(f, 0, m);
    OneInNetOrder();
    DataEnd(f, |f| - 5 - |m.pbData|, m.pbData, n);
  }

  lemma DataEnd(f: seq<Byte>, at: nat, data: seq<Byte>, n: nat)
    requires |f| == at + |data| + 5 && At(f, at, data) && At(f, at + |data|, [0, 0, 0, 1] + [PB_END])
    requires n >= 7 && |data| >= n - 4 && data[|data| - (n - 4)..] == [PB_END, PB_START] + Zeros(n - 6)
    ensures NothingAt(f, |f| - n - 1)
  {
    hide Zeros;
    DataTail(data, n);
    Inside(f, at, data);
    var e, end := at + |data|, [0, 0, 0, 1] + [PB_END];
    Inside(f, e, end);
    assert f[e + 0] == end[0] == 0 && f[e + 1] == end[1] == 0 && f[e + 2] == end[2] == 0;
    forall i | e - (n - 6) <= i < e ensures f[i] == 0 {
      assert f[at + (i - at)] == data[i - at];
    }
    assert f[at + (|data| - (n - 4))] == PB_END && f[at + (|data| - (n - 5))] == PB_START;
  }

  lemma DataTail(data: seq<Byte>, n: nat)
    requires n >= 7 && |data| >= n - 4 && data[|data| - (n - 4)..] == [PB_END, PB_START] + Zeros(n - 6)
    ensures data[|data| - (n - 4)] == PB_END && data[|data| - (n - 5)] == PB_START
    ensures forall k :: |data| - (n - 6) <= k < |data| ==> data[k] == 0
  {
    var z := data[|data| - (n - 4)..];
    assert z[0] == PB_END && z[1] == PB_START;
    forall k | |data| - (n - 6) <= k < |data| ensures data[k] == 0 {
      assert data[k] == z[k - (|data| - (n - 4))];
    }
  }

  lemma Inside(f: seq<Byte>, at: nat, part: seq<Byte>)
    requires At(f, at, part)
    ensures forall k :: 0 <= k < |part| ==> f[at + k] == part[k]
  {
    var slice := f[at..at + |part|];
    assert forall k :: 0 <= k < |part| ==> f[at + k] == slice[k];
  }

  /** Noise in front of a frame: the end of the frame is where the frame would end without the noise. */
  lemma NoiseShifts(noise: seq<Byte>, f: seq<Byte>)
    requires |noise| >= 7 && |noise| < |f| && NothingAt(f, |f| - |noise| - 1)
    ensures NothingAt(noise + f, |f| - 1)
  {
    var c := noise + f;
    assert forall i :: 0 <= i < |f| ==> c[|noise| + i] == f[i];
    var at := |f| - |noise| - 1;
    assert c[|f| - 1 + 2..|f| - 1 + 6] == f[at + 2..at + 6];
  }

  lemma NothingBehindFrame(b: Buf, len: nat)
    requires b.Valid() && |b.bytes| <= INT_MAX && 1 <= len && NothingAt(b.Contents(), len - 1)
    ensures DecodePass(MoveRead(b, len)) == Stop(if b.read + len < |b.bytes| / 3 then Diverges else Undefined)
  {
    hide DecodePass, MoveRead;
    var c := b.Contents();
    ConsumeMoves(b, len);
    AdjustedIndices(b.(read := b.read + len));
    var next := Drop(b, len);
    assert next.Contents() == c[len..];
    FieldInContents(next);
    assert next.Contents()[1..5] == c[len + 1..len + 5];
    if b.read + len < |b.bytes| / 3 {
      assert next.bytes[next.read - 1] == c[len - 1];
    }
    StartOfNothing(next);
  }

  lemma FieldInContents(b: Buf)
    requires b.Valid() && b.ReadAble() >= 5
    ensures b.bytes[b.read] == b.Contents()[0] && b.bytes[b.read + 1..b.read + 5] == b.Contents()[1..5]
  {
    var c, field := b.Contents(), b.bytes[b.read + 1..b.read + 5];
    assert forall i :: 0 <= i < 4 ==> field[i] == b.bytes[b.read + 1 + i] == c[1 + i];
    assert field == c[1..5];
  }

  /** A start byte followed by four zeros is a frame of length zero, whose end is the byte before it. */
  lemma StartOfNothing(b: Buf)
    requires b.Valid() && |b.bytes| <= INT_MAX && b.read + 1 < b.write && b.read + 5 <= |b.bytes|
    requires b.bytes[b.read] == PB_START && b.bytes[b.read + 1..b.read + 5] == [0, 0, 0, 0]
    requires b.read > 0 ==> b.read < |b.bytes| / 3 && b.bytes[b.read - 1] == PB_END
    ensures DecodePass(b) == Stop(if b.read > 0 then Diverges else Undefined)
  {
    hide NetBytes, GetInt32, ParseId, Adjust;
    ZeroInNetOrder();
    NetRoundTrip(0, b.bytes, b.read + 1);
    if b.read > 0 {
      assert ScanFrom(b.bytes, b.write, b.read) == Found(b.read, b.read - 1, 0);
      NothingIsDropped(b.bytes, b.read);
      assert MoveRead(b, 0) == b by { AdjustedIndices(b); }
    }
  }

  lemma NothingIsDropped(s: seq<Byte>, start: nat)
    requires start > 0
    ensures ParseFrame(s, start, start - 1, 0) == Dropped
  {
  }

  /** No stream loses anything to `n` bytes of noise without a start byte, in any buffer. (Without noise, there
      must be room to move past the last frame.) */
  ghost predicate CostsNothing(n: nat) {
    forall b: Buf, noise: seq<Byte>, ms: seq<Message> :: Noisy(b, noise, ms, n) ==> DeliversAll(b, ms)
  }

  predicate DeliversAll(b: Buf, ms: seq<Message>) {
    b.Valid() && Decode(b).outcome == Finished && Decode(b).messages == SealAll(ms)
  }

  predicate Noisy(b: Buf, noise: seq<Byte>, ms: seq<Message>, n: nat) {
    && b.Valid() && |b.bytes| <= INT_MAX && AllEncodable(ms) && AllSized(ms) && |noise| == n && NoStart(noise)
    && b.Contents() == noise + Stream(ms) && (n > 0 || RoomToFinish(b, ms))
  }

  /** Six bytes are the most: noise of length `n` costs no message of any stream if and only if `n` is at most
      six, for every `n` that a buffer can hold with a frame behind it. */
  lemma HarmlessNoiseIff(n: nat)
    requires n + 100 <= INT_MAX
    ensures CostsNothing(n) <==> n <= 6
  {
    hide Noisy, DeliversAll;
    if n <= 6 {
      ShortNoise(n);
    } else {
      var m := if n <= 27 then Tiny([PB_END, PB_START] + Zeros(n - 6)) else Tiny([]);
      assert |m.pbData| <= 100;
      BehindIsNoisy(n, m);
      NoiseFails(n, m);
    }
  }

  lemma ShortNoise(n: nat)
    requires n <= 6
    ensures CostsNothing(n)
  {
    hide Noisy, DeliversAll;
    forall b: Buf, noise: seq<Byte>, ms: seq<Message> | Noisy(b, noise, ms, n) ensures DeliversAll(b, ms) {
      ShortNoiseOf(b, noise, ms, n);
    }
  }

  lemma NoiseFails(n: nat, m: Message)
    requires Encodable(m) && n + FrameLen(m) <= INT_MAX
    requires EndsInNothing(m, n) || n > FrameLen(m)
    ensures !DeliversAll(Behind(Zeros(n), m), [m])
  {
    hide Decode, FrameLen, Frame, Encodable, EndsInNothing;
    if n > FrameLen(m) {
      TakenTwice(Behind(Zeros(n), m), Zeros(n), m);
    } else {
      LongNoiseFails(Behind(Zeros(n), m), Zeros(n), m);
    }
  }

  lemma ShortNoiseOf(b: Buf, noise: seq<Byte>, ms: seq<Message>, n: nat)
    requires Noisy(b, noise, ms, n) && n <= 6
    ensures DeliversAll(b, ms)
  {
    hide Frame, Encodable, Decode, RoomToFinish;
    if n == 0 {
      assert b.Contents() == [] + Stream(ms) + [];
      NoLag(ms);
      DecodeStream(b, [], ms, []);
    } else {
      Resynchronises(b, noise, ms);
    }
  }

  /** A message with an id of one character and the given data. */
  function Tiny(data: seq<Byte>): (m: Message)
    ensures FrameLen(m) == 27 + |data|
    ensures |data| <= 100 ==> Encodable(m)
  {
    Message([49], [], 0, [], data, 0, 0, 0, 0, false)
  }

  /** A buffer filled by noise and one frame. */
  function Behind(noise: seq<Byte>, m: Message): (b: Buf)
    requires Sized(m)
    ensures b.Valid() && b.Contents() == noise + Frame(m) && b.read == 0 && |b.bytes| == |noise| + FrameLen(m)
  {
    Buf(noise + Frame(m), 0, |noise| + FrameLen(m))
  }

  lemma BehindIsNoisy(n: nat, m: Message)
    requires n > 0 && Encodable(m) && n + FrameLen(m) <= INT_MAX
    ensures Noisy(Behind(Zeros(n), m), Zeros(n), [m], n)
  {
    hide Frame, FrameLen;
    assert Stream([m]) == Frame(m) + Stream([]) == Frame(m);
  }

  /** More noise than a frame is long: the index moves by the frame, and the same frame is found again. */
  lemma TakenTwice(b: Buf, noise: seq<Byte>, m: Message)
    requires b.Valid() && |b.bytes| <= INT_MAX && Encodable(m) && NoStart(noise) && |noise| > FrameLen(m)
    requires b.Contents() == noise + Frame(m)
    ensures |Decode(b).messages| >= 2
  {
    hide Frame, Encodable, QuietLag, Seal, MoveRead, DecodePass, Decode, FrameLen;
    var next, less := MoveRead(b, FrameLen(m)), noise[FrameLen(m)..];
    FrameBehindNoise(b, noise, m);
    NoiseUsedUp(b, noise, m);
    FrameBehindNoise(next, less, m);
    TwoPasses(b);
  }

  lemma NoiseUsedUp(b: Buf, noise: seq<Byte>, m: Message)
    requires b.Valid() && Sized(m) && |noise| > FrameLen(m) && NoStart(noise) && b.Contents() == noise + Frame(m)
    ensures var next, less := MoveRead(b, FrameLen(m)), noise[FrameLen(m)..];
            next.Valid() && |next.bytes| == |b.bytes| && next.Contents() == less + Frame(m) && NoStart(less)
  {
    hide Frame, FrameLen, Sized, MoveRead, Drop;
    ConsumeMoves(b, FrameLen(m));
    assert (noise + Frame(m))[FrameLen(m)..] == noise[FrameLen(m)..] + Frame(m);
  }

  lemma TwoPasses(b: Buf)
    requires b.Valid() && DecodePass(b).More? && DecodePass(DecodePass(b).next).More?
    ensures |Decode(b).messages| >= |DecodePass(b).got| + |DecodePass(DecodePass(b).next).got|
  {
    hide DecodePass, Decode;
    DecodeUnfolds(b);
    DecodeUnfolds(DecodePass(b).next);
  }
}
