/** One frame and streams of frames: layout, parsing, scanning, decoding. */
module FrameStreams {
  import opened Bytes
  import opened TcpBuffers
  import opened TinyPB

  // One frame.

  predicate NulFree(s: seq<Byte>) {
    0 !in s
  }

  /** The field limits that the fixed arrays of the decoder set. */
  predicate Encodable(m: Message) {
    && Sized(m)
    && NulFree(Id(m)) && |Id(m)| < MSG_ID_ARRAY
    && NulFree(m.methodName) && |m.methodName| < METHOD_NAME_ARRAY
    && NulFree(m.errInfo) && |m.errInfo| < ERROR_INFO_ARRAY
  }

  lemma EncodableIsSized(m: Message)
    requires Encodable(m)
    ensures Sized(m) && FrameLen(m) >= 26
  {
  }

  lemma {:induction false} CStringKeeps(s: seq<Byte>)
    ensures CString(s) == s <==> NulFree(s)
  {
    if s != [] && s[0] != 0 {
      CStringKeeps(s[1..]);
      assert s == [s[0]] + s[1..];
    }
  }

  /** A length-prefixed field at `i`. */
  predicate BlockAt(s: seq<Byte>, i: nat, field: seq<Byte>) {
    i + 4 <= |s| && GetInt32(s, i) == |field| && At(s, i + 4, field)
  }

  /** Where every field of a frame of `len` bytes sits when the frame starts at `i`. */
  predicate LaidOut(s: seq<Byte>, i: nat, len: nat, id: seq<Byte>, name: seq<Byte>, code: Int32, info: seq<Byte>,
                    data: seq<Byte>) {
    var idLenAt := i + 1 + 4;
    var nameLenAt := idLenAt + 4 + |id|;
    var codeAt := nameLenAt + 4 + |name|;
    var infoLenAt := codeAt + 4;
    var dataAt := infoLenAt + 4 + |info|;
    && len == 26 + |id| + |name| + |info| + |data| && i + len <= |s|
    && s[i] == PB_START && GetInt32(s, i + 1) == len && s[dataAt + |data| + 4] == PB_END
    && BlockAt(s, idLenAt, id) && BlockAt(s, nameLenAt, name)
    && GetInt32(s, codeAt) == code && BlockAt(s, infoLenAt, info)
    && At(s, dataAt, data) && At(s, dataAt + |data|, NetBytes(1) + [PB_END])
  }

  predicate FrameLaid(s: seq<Byte>, i: nat, m: Message) {
    LaidOut(s, i, FrameLen(m), Id(m), m.methodName, m.errCode, m.errInfo, m.pbData)
  }

  lemma FrameLaidOut(s: seq<Byte>, i: nat, m: Message)
    requires Sized(m) && At(s, i, Frame(m))
    ensures FrameLaid(s, i, m)
  {
    FieldsLaidOut(s, i, FrameLen(m), Id(m), m.methodName, m.errCode, m.errInfo, m.pbData);
  }

  lemma FieldsLaidOut(s: seq<Byte>, i: nat, len: Int32, id: seq<Byte>, name: seq<Byte>, code: Int32, info: seq<Byte>,
                      data: seq<Byte>)
    requires len == 26 + |id| + |name| + |info| + |data|
    requires At(s, i, [PB_START] + (NetBytes(len) + (NetBytes(|id|) + (id + (NetBytes(|name|) + (name
                      + (NetBytes(code) + (NetBytes(|info|) + (info + (data + (NetBytes(1) + [PB_END])))))))))))
    ensures LaidOut(s, i, len, id, name, code, info, data)
  {
    hide GetInt32, NetBytes, BlockAt, At;
    var r3 := NetBytes(|info|) + (info + (data + (NetBytes(1) + [PB_END])));
    var r2 := NetBytes(|name|) + (name + (NetBytes(code) + r3));
    var r1 := NetBytes(|id|) + (id + r2);
    FirstByte(s, i, PB_START, NetBytes(len) + r1);
    FieldInt(s, i + 1, len, r1);
    var idLenAt := i + 1 + 4;
    FieldBlock(s, idLenAt, id, r2);
    var nameLenAt := idLenAt + 4 + |id|;
    FieldBlock(s, nameLenAt, name, NetBytes(code) + r3);
    BackLaidOut(s, nameLenAt + 4 + |name|, code, info, data);
  }

  lemma BackLaidOut(s: seq<Byte>, codeAt: nat, code: Int32, info: seq<Byte>, data: seq<Byte>)
    requires |info| <= INT_MAX
    requires At(s, codeAt, NetBytes(code) + (NetBytes(|info|) + (info + (data + (NetBytes(1) + [PB_END])))))
    ensures var dataAt := codeAt + 4 + 4 + |info|;
            && dataAt + |data| + 4 < |s| && GetInt32(s, codeAt) == code && BlockAt(s, codeAt + 4, info)
            && At(s, dataAt, data) && At(s, dataAt + |data|, NetBytes(1) + [PB_END]) && s[dataAt + |data| + 4] == PB_END
  {
    hide GetInt32, NetBytes, BlockAt, At;
    var r4 := data + (NetBytes(1) + [PB_END]);
    FieldInt(s, codeAt, code, NetBytes(|info|) + (info + r4));
    FieldBlock(s, codeAt + 4, info, r4);
    Trailer(s, codeAt + 4 + 4 + |info|, data);
  }

  lemma FirstByte(s: seq<Byte>, i: nat, first: Byte, rest: seq<Byte>)
    requires At(s, i, [first] + rest)
    ensures i < |s| && s[i] == first && At(s, i + 1, rest)
  {
    AtSplit(s, i, [first], rest);
    assert s[i] == s[i..i + 1][0];
  }

  lemma Trailer(s: seq<Byte>, i: nat, data: seq<Byte>)
    requires At(s, i, data + (NetBytes(1) + [PB_END]))
    ensures At(s, i, data) && At(s, i + |data|, NetBytes(1) + [PB_END])
    ensures i + |data| + 4 < |s| && s[i + |data| + 4] == PB_END
  {
    AtSplit(s, i, data, NetBytes(1) + [PB_END]);
    assert s[i + |data| + 4] == s[i + |data|..i + |data| + 5][4];
  }

  lemma FieldInt(s: seq<Byte>, i: nat, n: Int32, rest: seq<Byte>)
    requires At(s, i, NetBytes(n) + rest)
    ensures i + 4 <= |s| && GetInt32(s, i) == n && At(s, i + 4, rest)
  {
    AtSplit(s, i, NetBytes(n), rest);
    NetRoundTrip(n, s, i);
  }

  lemma FieldBlock(s: seq<Byte>, i: nat, field: seq<Byte>, rest: seq<Byte>)
    requires |field| <= INT_MAX && At(s, i, NetBytes(|field|) + (field + rest))
    ensures BlockAt(s, i, field) && At(s, i + 4 + |field|, rest)
  {
    FieldInt(s, i, |field|, field + rest);
    AtSplit(s, i + 4, field, rest);
  }

  lemma CopyFieldAt(s: seq<Byte>, i: nat, field: seq<Byte>, size: nat)
    requires At(s, i, field)
    ensures CopyField(s, i, |field|, size) == if |field| < size then Text(CString(field)) else Overrun
  {
  }

  lemma InfoParses(s: seq<Byte>, codeAt: nat, end: nat, len: nat, idLen: nat, id: seq<Byte>, nameLen: nat,
                   name: seq<Byte>, info: seq<Byte>, data: seq<Byte>)
    requires codeAt + 8 < end < |s| && BlockAt(s, codeAt + 4, info) && At(s, codeAt + 8 + |info|, data)
    requires len == 26 + idLen + nameLen + |info| + |data|
    ensures ParseInfo(s, codeAt, end, len, idLen, id, nameLen, name)
            == if |info| < ERROR_INFO_ARRAY
               then Parsed(Message(id, name, GetInt32(s, codeAt), CString(info), data,
                                   len, idLen, nameLen, |info|, true))
               else Broken
  {
    hide CString, GetInt32;
    CopyFieldAt(s, codeAt + 8, info, ERROR_INFO_ARRAY);
  }

  lemma NameParses(s: seq<Byte>, nameLenAt: nat, end: nat, len: nat, idLen: nat, id: seq<Byte>, name: seq<Byte>)
    requires nameLenAt < end && BlockAt(s, nameLenAt, name)
    ensures ParseName(s, nameLenAt, end, len, idLen, id)
            == if |name| < METHOD_NAME_ARRAY
               then ParseInfo(s, nameLenAt + 4 + |name|, end, len, idLen, id, |name|, CString(name))
               else Broken
  {
    hide ParseInfo, CString, GetInt32;
    CopyFieldAt(s, nameLenAt + 4, name, METHOD_NAME_ARRAY);
  }

  lemma IdParses(s: seq<Byte>, idLenAt: nat, end: nat, len: nat, id: seq<Byte>)
    requires idLenAt < end && BlockAt(s, idLenAt, id)
    ensures ParseId(s, idLenAt, end, len)
            == if |id| < MSG_ID_ARRAY then ParseName(s, idLenAt + 4 + |id|, end, len, |id|, CString(id)) else Broken
  {
    hide ParseName, CString, GetInt32;
    CopyFieldAt(s, idLenAt + 4, id, MSG_ID_ARRAY);
  }

  /** What the parser makes of three fields within or beyond the sizes of its arrays. */
  function ParsedFields(len: int, id: seq<Byte>, name: seq<Byte>, code: Int32, info: seq<Byte>,
                        data: seq<Byte>): Parse {
    if |id| < MSG_ID_ARRAY && |name| < METHOD_NAME_ARRAY && |info| < ERROR_INFO_ARRAY
    then Parsed(Message(CString(id), CString(name), code, CString(info), data, len, |id|, |name|, |info|, true))
    else Broken
  }

  lemma BlocksParse(s: seq<Byte>, idLenAt: nat, end: nat, id: seq<Byte>, name: seq<Byte>, info: seq<Byte>,
                    data: seq<Byte>)
    requires end == idLenAt + |id| + |name| + |info| + |data| + 20 < |s|
    requires BlockAt(s, idLenAt, id) && BlockAt(s, idLenAt + 4 + |id|, name)
    requires BlockAt(s, idLenAt + 4 + |id| + 4 + |name| + 4, info)
    requires At(s, idLenAt + 4 + |id| + 4 + |name| + 8 + |info|, data)
    ensures var len := end - idLenAt + 6;
            ParseId(s, idLenAt, end, len)
            == ParsedFields(len, id, name, GetInt32(s, idLenAt + 4 + |id| + 4 + |name|), info, data)
  {
    hide ParseId, ParseName, ParseInfo, CString, GetInt32, At, BlockAt;
    var len := end - idLenAt + 6;
    IdParses(s, idLenAt, end, len, id);
    NameParses(s, idLenAt + 4 + |id|, end, len, |id|, CString(id), name);
    InfoParses(s, idLenAt + 4 + |id| + 4 + |name|, end, len, |id|, CString(id), |name|, CString(name), info, data);
  }

  lemma LaidOutParses(s: seq<Byte>, i: nat, len: nat, id: seq<Byte>, name: seq<Byte>, code: Int32, info: seq<Byte>,
                      data: seq<Byte>)
    requires LaidOut(s, i, len, id, name, code, info, data)
    ensures ParseFrame(s, i, i + len - 1, len) == ParsedFields(len, id, name, code, info, data)
  {
    hide ParseId, ParsedFields, GetInt32, At, BlockAt, NetBytes;
    BlocksParse(s, i + 1 + 4, i + len - 1, id, name, info, data);
  }

  // Any bytes between a start and an end byte.

  /** A length below `size` stands at `p`, and as many bytes follow. */
  predicate IsField(s: seq<Byte>, p: nat, size: nat) {
    p + 4 <= |s| && 0 <= GetInt32(s, p) < size && p + 4 + GetInt32(s, p) <= |s|
  }

  /** Where the field at `p` ends. */
  function Behind(s: seq<Byte>, p: nat): (q: nat)
    requires p + 4 <= |s| && GetInt32(s, p) >= 0
    ensures q == p + 4 + GetInt32(s, p)
  {
    p + 4 + GetInt32(s, p)
  }

  /** The id and method fields, and the error code, are in front of `end`; `c` is where the code stands. */
  predicate HeaderTo(s: seq<Byte>, start: nat, end: nat, c: nat) {
    var a := start + 5;
    a < end && IsField(s, a, 100)
    && var b := Behind(s, a);
       b < end && IsField(s, b, 512) && c == Behind(s, b)
  }

  /** The header of what looks like a frame reaches its end byte before the last length, with no field too long on
      the way. */
  ghost predicate HeaderEnds(s: seq<Byte>, start: nat, end: nat) {
    var a := start + 5;
    a >= end
    || (IsField(s, a, 100) && Behind(s, a) >= end)
    || exists c: nat :: HeaderTo(s, start, end, c) && (c >= end || (c + 4 >= end && c + 4 <= |s|))
  }

  /** The header is in front of `end` in whole, and the data ends four bytes before it. */
  predicate HeaderFits(s: seq<Byte>, start: nat, end: nat, c: nat) {
    && HeaderTo(s, start, end, c) && c + 4 < end && IsField(s, c + 4, 512)
    && Behind(s, c + 4) <= end - 4
  }

  /** Any bytes whatever between a start and an end byte: dropped if and only if the header reaches the end byte, parsed
      if and only if it fits, otherwise read outside the arrays. */
  lemma AnyFrame(s: seq<Byte>, start: nat, end: nat)
    requires end < |s|
    ensures var r := ParseFrame(s, start, end, end - start + 1);
            && (r.Dropped? <==> HeaderEnds(s, start, end))
            && (r.Parsed? <==> exists c: nat :: HeaderFits(s, start, end, c))
  {
    hide GetInt32, CString;
    var a := start + 5;
    if a < end && IsField(s, a, 100) {
      AnyName(s, start, end);
    }
  }

  lemma AnyName(s: seq<Byte>, start: nat, end: nat)
    requires end < |s| && start + 5 < end && IsField(s, start + 5, 100)
    ensures var r := ParseFrame(s, start, end, end - start + 1);
            && (r.Dropped? <==> HeaderEnds(s, start, end))
            && (r.Parsed? <==> exists c: nat :: HeaderFits(s, start, end, c))
  {
    hide GetInt32, CString;
    var b := Behind(s, start + 5);
    if b < end && IsField(s, b, 512) {
      var c := Behind(s, b);
      assert HeaderTo(s, start, end, c);
      assert forall d: nat :: HeaderTo(s, start, end, d) ==> d == c;
      assert HeaderFits(s, start, end, c) <==> c + 4 < end && IsField(s, c + 4, 512) && Behind(s, c + 4) <= end - 4;
    }
  }

  /** What is parsed then: each field's bytes up to a NUL, the code, and the data as it stands. */
  lemma AnyFrameFields(s: seq<Byte>, start: nat, end: nat, c: nat)
    requires end < |s| && HeaderFits(s, start, end, c)
    ensures var a := start + 5; var b := Behind(s, a); var i := c + 4; var d := Behind(s, i);
            ParseFrame(s, start, end, end - start + 1)
            == Parsed(Message(CString(s[a + 4..b]), CString(s[b + 4..c]), GetInt32(s, c), CString(s[i + 4..d]),
                              s[d..end - 4], end - start + 1, b - a - 4, c - b - 4, d - i - 4, true))
  {
    hide GetInt32, CString;
  }

  /** The fields of a whole frame come back as they went in exactly when they are within the limits. */
  lemma FrameRoundTrip(s: seq<Byte>, i: nat, m: Message)
    requires Sized(m) && At(s, i, Frame(m))
    ensures ParseFrame(s, i, i + FrameLen(m) - 1, FrameLen(m)) == Parsed(Seal(m)) <==> Encodable(m)
  {
    hide Frame, ParseFrame, At, CString, LaidOut;
    FrameLaidOut(s, i, m);
    LaidOutParses(s, i, FrameLen(m), Id(m), m.methodName, m.errCode, m.errInfo, m.pbData);
    CStringKeeps(Id(m));
    CStringKeeps(m.methodName);
    CStringKeeps(m.errInfo);
  }

  lemma FrameFound(s: seq<Byte>, write: nat, i: nat, m: Message)
    requires Sized(m) && At(s, i, Frame(m)) && i + FrameLen(m) <= write <= |s| <= INT_MAX
    ensures ScanFrom(s, write, i) == Found(i, i + FrameLen(m) - 1, FrameLen(m))
  {
    FrameLaidOut(s, i, m);
  }

  // Noise and unfinished frames.

  predicate NoStart(s: seq<Byte>) {
    PB_START !in s
  }

  /** Where the length field after a start byte at `i` says the frame ends. */
  function EndOf(s: seq<Byte>, i: nat): int
    requires i + 5 <= |s|
  {
    i + GetInt32(s, i + 1) - 1
  }

  /** The start byte at `i` has its length field inside `s`, and that leads to a place the scanner may look at. */
  predicate Sane(s: seq<Byte>, i: nat, capacity: nat)
    requires i < |s|
  {
    s[i] == PB_START && i + 1 < |s| ==> i + 5 <= |s| && 0 <= EndOf(s, i) <= INT_MAX - capacity
  }

  /** The start byte at `i` leads to an end byte in `s`. */
  predicate Misleads(s: seq<Byte>, i: nat)
    requires i < |s|
  {
    s[i] == PB_START && i + 5 <= |s| && 0 <= EndOf(s, i) < |s| && s[EndOf(s, i)] == PB_END
  }

  predicate SaneFrom(s: seq<Byte>, from: nat, capacity: nat) {
    forall i :: from <= i < |s| ==> Sane(s, i, capacity)
  }

  predicate NoneMisleads(s: seq<Byte>, from: nat) {
    forall i :: from <= i < |s| ==> !Misleads(s, i)
  }

  /** An unfinished tail that holds no start byte that fools the scanner. */
  predicate QuietTail(tail: seq<Byte>, capacity: nat) {
    SaneFrom(tail, 0, capacity) && NoneMisleads(tail, 0)
  }

  /** Bytes in front of a frame that the scanner runs past: any start byte leads back into them, to no end byte. */
  predicate QuietLag(lag: seq<Byte>) {
    forall i :: 0 <= i < |lag| && lag[i] == PB_START ==>
      i + 5 <= |lag| && 0 <= EndOf(lag, i) < |lag| && lag[EndOf(lag, i)] != PB_END
  }

  lemma SameInt(s: seq<Byte>, base: nat, write: nat, i: nat)
    requires base + i + 4 <= write <= |s|
    ensures GetInt32(s[base..write], i) == GetInt32(s, base + i)
  {
    var part := s[base..write];
    assert forall k :: i <= k < i + 4 ==> part[k] == s[base + k];
    assert part[i..i + 4] == s[base + i..base + i + 4];
  }

  /** One step of the scanner, told in terms of the part of the buffer it is in. */
  lemma ScanStep(s: seq<Byte>, write: nat, base: nat, top: nat, i: nat)
    requires base <= i < top <= write <= |s| <= INT_MAX
    requires s[i] == PB_START && i + 1 < write ==>
               i + 5 <= top && 0 <= EndOf(s[base..top], i - base) <= INT_MAX - base
    ensures ScanFrom(s, write, i)
            == if s[i] == PB_START && i + 1 < write
                  && base + EndOf(s[base..top], i - base) < write && s[base + EndOf(s[base..top], i - base)] == PB_END
               then Found(i, base + EndOf(s[base..top], i - base), GetInt32(s, i + 1))
               else ScanFrom(s, write, i + 1)
  {
    hide GetInt32;
    if s[i] == PB_START && i + 1 < write {
      SameInt(s, base, top, i - base + 1);
    }
  }

  lemma {:induction false} ScanSkips(s: seq<Byte>, write: nat, base: nat, i: nat, k: nat)
    requires base <= i <= k <= write <= |s| && |s| <= INT_MAX && QuietLag(s[base..k])
    ensures ScanFrom(s, write, i) == ScanFrom(s, write, k)
    decreases k - i
  {
    hide GetInt32, ScanFrom;
    if i < k {
      assert s[base..k][i - base] == s[i];
      ScanStep(s, write, base, k, i);
      ScanSkips(s, write, base, i + 1, k);
    }
  }

  /** What the scanner asks of the byte at `k`, over the whole vector: a start byte must have its length field in
      the vector, and that must lead beyond the written bytes or to one of them that is no end byte. */
  predicate Harmless(s: seq<Byte>, write: nat, k: nat)
    requires k < write <= |s|
  {
    s[k] == PB_START && k + 1 < write ==>
      k + 5 <= |s| && 0 <= EndOf(s, k) <= INT_MAX && (EndOf(s, k) < write ==> s[EndOf(s, k)] != PB_END)
  }

  predicate HarmlessFrom(s: seq<Byte>, write: nat, i: nat)
    requires write <= |s|
  {
    forall k :: i <= k < write ==> Harmless(s, write, k)
  }

  /** The scanner runs to the end exactly when no byte it passes does harm. */
  lemma {:induction false} ScanQuietIff(s: seq<Byte>, write: nat, i: nat)
    requires write <= |s|
    ensures ScanFrom(s, write, i).Quiet? <==> HarmlessFrom(s, write, i)
    decreases write - i
  {
    hide ScanFrom, Harmless;
    if i < write {
      ScanPasses(s, write, i);
      ScanQuietIff(s, write, i + 1);
    } else {
      ScanEnds(s, write, i);
    }
  }

  lemma ScanPasses(s: seq<Byte>, write: nat, i: nat)
    requires i < write <= |s|
    ensures ScanFrom(s, write, i).Quiet? <==> Harmless(s, write, i) && ScanFrom(s, write, i + 1).Quiet?
  {
    hide GetInt32;
  }

  /** An unfinished tail with sane start bytes is left alone exactly when none of them leads to an end byte. */
  lemma {:induction false} ScanTail(s: seq<Byte>, write: nat, base: nat, i: nat)
    requires base <= i <= write <= |s| <= INT_MAX && SaneFrom(s[base..write], i - base, |s|)
    ensures ScanFrom(s, write, i).Quiet? <==> NoneMisleads(s[base..write], i - base)
    decreases write - i
  {
    hide GetInt32, ScanFrom;
    if i < write {
      var tail := s[base..write];
      assert tail[i - base] == s[i] && Sane(tail, i - base, |s|);
      ScanStep(s, write, base, write, i);
      ScanTail(s, write, base, i + 1);
      assert NoneMisleads(tail, i - base) <==> !Misleads(tail, i - base) && NoneMisleads(tail, i + 1 - base);
    } else {
      ScanEnds(s, write, i);
    }
  }

  lemma ScanEnds(s: seq<Byte>, write: nat, i: nat)
    requires write <= |s| && i >= write
    ensures ScanFrom(s, write, i) == Quiet
  {
  }

  // Streams of frames.

  predicate AllEncodable(ms: seq<Message>) {
    forall m :: m in ms ==> Encodable(m)
  }

  lemma EncodableAreSized(ms: seq<Message>)
    requires AllEncodable(ms)
    ensures AllSized(ms)
  {
  }

  /** The last |lag| bytes before the next frame, once the frame of `m` has been taken off the front. */
  function Lag(lag: seq<Byte>, m: Message): (r: seq<Byte>)
    requires Sized(m)
    ensures |r| == |lag|
  {
    (lag + Frame(m))[FrameLen(m)..]
  }

  /** The bytes that remain in front of the scanner never fool it. */
  predicate LagClean(lag: seq<Byte>, ms: seq<Message>)
    requires AllSized(ms)
    decreases |ms|
  {
    QuietLag(lag) && (ms != [] ==> LagClean(Lag(lag, ms[0]), ms[1..]))
  }

  function FinalLag(lag: seq<Byte>, ms: seq<Message>): (r: seq<Byte>)
    requires AllSized(ms)
    ensures |r| == |lag|
    decreases |ms|
  {
    if ms == [] then lag else FinalLag(Lag(lag, ms[0]), ms[1..])
  }

  /** What makes the index move past the last frame of a bare stream succeed: the data ends below the
      capacity, or a move past an earlier frame has compacted the buffer. */
  predicate RoomToFinish(b: Buf, ms: seq<Message>)
    requires b.Valid() && AllSized(ms)
  {
    || ms == []
    || b.write < |b.bytes|
    || (|ms| >= 2 && b.write - FrameLen(ms[|ms| - 1]) >= |b.bytes| / 3)
  }

  lemma PassTakesFrame(b: Buf, lag: seq<Byte>, m: Message, rest: seq<Byte>)
    requires b.Valid() && |b.bytes| <= INT_MAX && Encodable(m) && QuietLag(lag)
    requires b.Contents() == lag + (Frame(m) + rest)
    ensures DecodePass(b) == if b.read + FrameLen(m) >= |b.bytes| then Stop(Diverges)
                             else More([Seal(m)], MoveRead(b, FrameLen(m)))
  {
    hide Frame, DecodePass, Seal, MoveRead;
    FrameInside(b, lag, Frame(m), rest);
    PassFrom(b, |lag|, m);
  }

  lemma FrameInside(b: Buf, lag: seq<Byte>, frame: seq<Byte>, rest: seq<Byte>)
    requires b.Valid() && b.Contents() == lag + (frame + rest)
    ensures At(b.bytes, b.read, lag) && At(b.bytes, b.read + |lag|, frame) && b.read + |lag| + |frame| <= b.write
  {
    assert b.bytes[b.read..b.write] == lag + (frame + rest);
    AtSplit(b.bytes, b.read, lag, frame + rest);
    AtSplit(b.bytes, b.read + |lag|, frame, rest);
  }

  lemma PassFrom(b: Buf, k: nat, m: Message)
    requires b.Valid() && |b.bytes| <= INT_MAX && Encodable(m)
    requires b.read + k + FrameLen(m) <= b.write && QuietLag(b.bytes[b.read..b.read + k])
    requires At(b.bytes, b.read + k, Frame(m))
    ensures DecodePass(b) == if b.read + FrameLen(m) >= |b.bytes| then Stop(Diverges)
                             else More([Seal(m)], MoveRead(b, FrameLen(m)))
  {
    hide Frame, ScanFrom, ParseFrame, MoveRead, Seal;
    ScanSkips(b.bytes, b.write, b.read, b.read, b.read + k);
    FrameFound(b.bytes, b.write, b.read + k, m);
    FrameRoundTrip(b.bytes, b.read + k, m);
    ConsumeMoves(b, FrameLen(m));
  }

  lemma PassOnTail(b: Buf, lag: seq<Byte>, tail: seq<Byte>)
    requires b.Valid() && |b.bytes| <= INT_MAX && b.Contents() == lag + tail
    requires QuietLag(lag) && QuietTail(tail, |b.bytes|)
    ensures DecodePass(b) == Stop(Finished)
  {
    var t := b.read + |lag|;
    assert b.bytes[b.read..t] == b.Contents()[..|lag|] == lag;
    assert b.bytes[t..b.write] == b.Contents()[|lag|..] == tail;
    ScanSkips(b.bytes, b.write, b.read, b.read, t);
    ScanTail(b.bytes, b.write, t, t);
  }

  /** Decoding noise ++ frames ++ unfinished tail: all the messages, in order, and the lag and the tail stay. */
  lemma {:induction false} DecodeStream(b: Buf, lag: seq<Byte>, ms: seq<Message>, tail: seq<Byte>)
    requires b.Valid() && |b.bytes| <= INT_MAX && AllEncodable(ms)
    requires b.Contents() == lag + Stream(ms) + tail
    requires LagClean(lag, ms) && QuietTail(tail, |b.bytes|)
    ensures var d := Decode(b);
            if lag + tail != [] || RoomToFinish(b, ms)
            then d.outcome == Finished && d.messages == SealAll(ms) && |d.rest.bytes| == |b.bytes|
                 && d.rest.Contents() == FinalLag(lag, ms) + tail
            else d.outcome == Diverges
    decreases |ms|
  {
    hide Frame, Decode, DecodePass, Seal, MoveRead, QuietTail, RoomToFinish, FrameLen, Encodable;
    DecodeUnfolds(b);
    assert QuietLag(lag);
    hide LagClean, QuietLag;
    if ms == [] {
      assert lag + Stream(ms) + tail == lag + tail;
      PassOnTail(b, lag, tail);
      NothingLeftIsRoom(b);
    } else {
      hide Stream, SealAll, FinalLag;
      EncodableAreSized(ms);
      StreamUnfolds(lag, ms, tail);
      var m := ms[0];
      assert m in ms;
      PassTakesFrame(b, lag, m, Stream(ms[1..]) + tail);
      AfterPass(b, lag, ms, tail);
      if b.read + FrameLen(m) < |b.bytes| {
        DecodeStream(MoveRead(b, FrameLen(m)), Lag(lag, m), ms[1..], tail);
      }
    }
  }

  lemma StreamUnfolds(lag: seq<Byte>, ms: seq<Message>, tail: seq<Byte>)
    requires AllSized(ms) && ms != [] && AllEncodable(ms) && LagClean(lag, ms)
    ensures AllSized(ms[1..]) && AllEncodable(ms[1..]) && QuietLag(lag) && LagClean(Lag(lag, ms[0]), ms[1..])
    ensures FinalLag(lag, ms) == FinalLag(Lag(lag, ms[0]), ms[1..])
    ensures lag + Stream(ms) + tail == lag + (Frame(ms[0]) + (Stream(ms[1..]) + tail))
    ensures SealAll(ms) == [Seal(ms[0])] + SealAll(ms[1..])
  {
    hide Frame, Seal, Encodable, QuietLag, FrameLen;
    assert forall x :: x in ms[1..] ==> x in ms;
  }

  lemma DecodeUnfolds(b: Buf)
    requires b.Valid()
    ensures DecodePass(b).Stop? && !DecodePass(b).outcome.Rewinds? ==>
              Decode(b) == Decoded(DecodePass(b).outcome, [], b)
    ensures DecodePass(b).Stop? ==> Decode(b).outcome == DecodePass(b).outcome
    ensures DecodePass(b).More? ==>
              var d := Decode(DecodePass(b).next); Decode(b) == d.(messages := DecodePass(b).got + d.messages)
  {
    hide DecodePass;
  }

  lemma NothingLeftIsRoom(b: Buf)
    requires b.Valid()
    ensures RoomToFinish(b, [])
  {
  }

  lemma AfterPass(b: Buf, lag: seq<Byte>, ms: seq<Message>, tail: seq<Byte>)
    requires b.Valid() && AllSized(ms) && ms != [] && b.Contents() == lag + Stream(ms) + tail
    ensures if b.read + FrameLen(ms[0]) < |b.bytes|
            then var next := MoveRead(b, FrameLen(ms[0]));
                 && next.Contents() == Lag(lag, ms[0]) + Stream(ms[1..]) + tail && |next.bytes| == |b.bytes|
                 && (lag + tail == [] ==> (RoomToFinish(b, ms) <==> RoomToFinish(next, ms[1..])))
            else lag + tail == [] && !RoomToFinish(b, ms)
  {
    hide Frame, FrameLen, Adjust, RoomToFinish;
    TakeFrame(lag, ms, tail);
    if b.read + FrameLen(ms[0]) < |b.bytes| {
      RoomCarriesOver(b, ms, |lag| + |tail|);
    } else {
      NoRoomAtEnd(b, ms, |lag| + |tail|);
    }
  }

  lemma TakeFrame(lag: seq<Byte>, ms: seq<Message>, tail: seq<Byte>)
    requires AllSized(ms) && ms != []
    ensures |lag + Stream(ms) + tail| == |Stream(ms)| + (|lag| + |tail|)
    ensures FrameLen(ms[0]) <= |Stream(ms)|
    ensures (lag + Stream(ms) + tail)[FrameLen(ms[0])..] == Lag(lag, ms[0]) + Stream(ms[1..]) + tail
  {
    hide Frame, FrameLen;
    FrontTaken(lag, Frame(ms[0]), Stream(ms[1..]), tail);
  }

  lemma FrontTaken(lag: seq<Byte>, f: seq<Byte>, rest: seq<Byte>, tail: seq<Byte>)
    ensures (lag + (f + rest) + tail)[|f|..] == (lag + f)[|f|..] + rest + tail
  {
    assert lag + (f + rest) + tail == (lag + f) + (rest + tail);
  }

  lemma NoRoomAtEnd(b: Buf, ms: seq<Message>, extra: nat)
    requires b.Valid() && AllSized(ms) && ms != [] && b.ReadAble() == |Stream(ms)| + extra
    requires b.read + FrameLen(ms[0]) >= |b.bytes|
    ensures extra == 0 && !RoomToFinish(b, ms)
  {
    hide Frame;
  }

  lemma RoomCarriesOver(b: Buf, ms: seq<Message>, extra: nat)
    requires b.Valid() && AllSized(ms) && ms != [] && b.ReadAble() == |Stream(ms)| + extra
    requires b.read + FrameLen(ms[0]) < |b.bytes|
    ensures extra == 0 ==> (RoomToFinish(b, ms) <==> RoomToFinish(MoveRead(b, FrameLen(ms[0])), ms[1..]))
  {
    hide Frame, FrameLen, Adjust, Stream;
    var f := FrameLen(ms[0]);
    FirstFits(ms);
    if |ms| >= 2 {
      LastFits(ms[1..]);
      assert ms[1..][|ms[1..]| - 1] == ms[|ms| - 1];
      AdjustedIndices(b.(read := b.read + f));
    }
  }

  lemma FirstFits(ms: seq<Message>)
    requires AllSized(ms) && ms != []
    ensures FrameLen(ms[0]) >= 26 && |Stream(ms)| == FrameLen(ms[0]) + |Stream(ms[1..])|
    ensures |ms| == 1 ==> |Stream(ms)| == FrameLen(ms[0])
  {
    hide Frame;
  }

  /** Where an adjustment leaves the write index. */
  lemma AdjustedIndices(b: Buf)
    requires b.Valid()
    ensures var b' := Adjust(b);
            if b.read < |b.bytes| / 3 then b' == b
            else b'.read == 0 && b'.write == b.write - b.read && |b'.bytes| == |b.bytes|
  {
  }

  lemma {:induction false} LastFits(ms: seq<Message>)
    requires AllSized(ms) && ms != []
    ensures |Stream(ms)| >= FrameLen(ms[|ms| - 1])
    ensures |ms| == 1 ==> |Stream(ms)| == FrameLen(ms[0])
  {
    if |ms| > 1 {
      LastFits(ms[1..]);
    }
  }
}
