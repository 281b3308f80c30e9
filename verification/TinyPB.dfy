/** The TinyPB frame coder of netrpc/net/coder/tinypb_coder.cc over the buffer of netrpc/net/tcp/tcp_buffer.cc. */
module TinyPB {
  import opened Bytes
  import opened TcpBuffers

  const PB_START: Byte := 0x02
  const PB_END: Byte := 0x03

  /** The characters of "123456789". */
  const DEFAULT_ID: seq<Byte> := [49, 50, 51, 52, 53, 54, 55, 56, 57]

  const MSG_ID_ARRAY := 100
  const METHOD_NAME_ARRAY := 512
  const ERROR_INFO_ARRAY := 512

  datatype Message = Message(
    msgId: seq<Byte>, methodName: seq<Byte>, errCode: Int32, errInfo: seq<Byte>, pbData: seq<Byte>,
    pkLen: int, msgIdLen: int, methodNameLen: int, errInfoLen: int, parseSuccess: bool)

  // Encoding.

  function Id(m: Message): seq<Byte> {
    if m.msgId == [] then DEFAULT_ID else m.msgId
  }

  function FrameLen(m: Message): nat {
    26 + |Id(m)| + |m.methodName| + |m.errInfo| + |m.pbData|
  }

  /** The frame length is an `int` in the source. */
  predicate Sized(m: Message) {
    FrameLen(m) <= INT_MAX
  }

  /** The frame layout; nested to the right so that fields split off from the front. */
  function Frame(m: Message): (f: seq<Byte>)
    requires Sized(m)
    ensures |f| == FrameLen(m)
  {
    [PB_START] + (NetBytes(FrameLen(m)) + (NetBytes(|Id(m)|) + (Id(m) + (NetBytes(|m.methodName|) + (m.methodName
    + (NetBytes(m.errCode) + (NetBytes(|m.errInfo|) + (m.errInfo + (m.pbData + (NetBytes(1) + [PB_END]))))))))))
  }

  /** The message as `encodeTinyPB` leaves it: default id, lengths filled in, marked as parsed. */
  function Seal(m: Message): Message {
    m.(msgId := Id(m), pkLen := FrameLen(m), msgIdLen := |Id(m)|, methodNameLen := |m.methodName|,
       errInfoLen := |m.errInfo|, parseSuccess := true)
  }

  predicate AllSized(ms: seq<Message>) {
    forall m :: m in ms ==> Sized(m)
  }

  function Stream(ms: seq<Message>): seq<Byte>
    requires AllSized(ms)
  {
    if ms == [] then [] else Frame(ms[0]) + Stream(ms[1..])
  }

  function SealAll(ms: seq<Message>): (r: seq<Message>)
    ensures |r| == |ms|
  {
    seq(|ms|, i requires 0 <= i < |ms| => Seal(ms[i]))
  }

  function AppendAll(b: Buf, ms: seq<Message>): (b': Buf)
    requires b.Valid() && AllSized(ms)
    ensures b'.Valid() && b'.Contents() == b.Contents() + Stream(ms)
    decreases |ms|
  {
    if ms == [] then b
    else
      assert b.Contents() + Frame(ms[0]) + Stream(ms[1..]) == b.Contents() + (Frame(ms[0]) + Stream(ms[1..]));
      AppendAll(Append(b, Frame(ms[0])), ms[1..])
  }

  /** `memcpy` to the write pointer; `rest` is what is still to be written of `goal`. */
  method Copy(buf: array<Byte>, pos: nat, part: seq<Byte>, ghost rest: seq<Byte>, ghost goal: seq<Byte>)
    returns (next: nat)
    requires pos <= buf.Length == |goal| && buf[..pos] + (part + rest) == goal
    modifies buf
    ensures next == pos + |part| <= buf.Length && buf[..next] + rest == goal
  {
    assert |buf[..pos] + (part + rest)| == pos + |part| + |rest|;
    forall i | 0 <= i < |part| {
      buf[pos + i] := part[i];
    }
    next := pos + |part|;
    assert buf[..next] == old(buf[..pos]) + part;
    assert old(buf[..pos]) + part + rest == old(buf[..pos]) + (part + rest);
  }

  /** The start byte, the frame length and the two fields in front of the error code. */
  method CopyFront(buf: array<Byte>, pkLen: Int32, m: Message, ghost code: seq<Byte>, ghost goal: seq<Byte>)
    returns (tmp: nat)
    requires buf.Length == |goal| && |m.msgId| <= INT_MAX && |m.methodName| <= INT_MAX
    requires goal == [PB_START] + (NetBytes(pkLen) + (NetBytes(|m.msgId|) + (m.msgId
                     + (NetBytes(|m.methodName|) + (m.methodName + code)))))
    modifies buf
    ensures tmp <= buf.Length && buf[..tmp] + code == goal
  {
    hide NetBytes;
    ghost var name := m.methodName + code;
    ghost var id := m.msgId + (NetBytes(|m.methodName|) + name);
    tmp := 0;
    assert buf[..tmp] == [];
    tmp := Copy(buf, tmp, [PB_START], NetBytes(pkLen) + (NetBytes(|m.msgId|) + id), goal);
    tmp := Copy(buf, tmp, NetBytes(pkLen), NetBytes(|m.msgId|) + id, goal);
    tmp := Copy(buf, tmp, NetBytes(|m.msgId|), id, goal);
    tmp := Copy(buf, tmp, m.msgId, NetBytes(|m.methodName|) + name, goal);
    tmp := Copy(buf, tmp, NetBytes(|m.methodName|), name, goal);
    tmp := Copy(buf, tmp, m.methodName, code, goal);
  }

  /** The error code and what is behind it, up to the end byte. */
  method CopyBack(buf: array<Byte>, pos: nat, m: Message, ghost goal: seq<Byte>)
    requires pos <= buf.Length == |goal| && |m.errInfo| <= INT_MAX
    requires buf[..pos] + (NetBytes(m.errCode) + (NetBytes(|m.errInfo|) + (m.errInfo
             + (m.pbData + (NetBytes(1) + [PB_END]))))) == goal
    modifies buf
    ensures buf[..] == goal
  {
    hide NetBytes;
    ghost var end := NetBytes(1) + [PB_END];
    ghost var info := m.errInfo + (m.pbData + end);
    var tmp := Copy(buf, pos, NetBytes(m.errCode), NetBytes(|m.errInfo|) + info, goal);
    tmp := Copy(buf, tmp, NetBytes(|m.errInfo|), info, goal);
    tmp := Copy(buf, tmp, m.errInfo, m.pbData + end, goal);
    tmp := Copy(buf, tmp, m.pbData, end, goal);
    tmp := Copy(buf, tmp, NetBytes(1), [PB_END], goal);
    assert [PB_END] + [] == [PB_END];
    tmp := Copy(buf, tmp, [PB_END], [], goal);
    assert buf[..] == buf[..tmp] + [];
  }

  method EncodeTinyPB(message: Message) returns (buf: array<Byte>, sealed: Message)
    requires Sized(message)
    ensures fresh(buf) && buf[..] == Frame(message) && sealed == Seal(message)
  {
    hide NetBytes;
    var m := message;
    if m.msgId == [] {
      m := m.(msgId := DEFAULT_ID);
    }
    var pkLen := 2 + 24 + |m.msgId| + |m.methodName| + |m.errInfo| + |m.pbData|;
    buf := new Byte[pkLen](_ => 0);
    ghost var f := Frame(message);
    ghost var code := NetBytes(m.errCode) + (NetBytes(|m.errInfo|) + (m.errInfo
                      + (m.pbData + (NetBytes(1) + [PB_END]))));
    var tmp := CopyFront(buf, pkLen, m, code, f);
    CopyBack(buf, tmp, m, f);
    sealed := m.(pkLen := pkLen, msgIdLen := |m.msgId|, methodNameLen := |m.methodName|,
                 errInfoLen := |m.errInfo|, parseSuccess := true);
  }

  /** Frames every message into `out`, in order; the messages come back as encoding leaves them. */
  method Encode(messages: seq<Message>, out: TcpBuffer) returns (sealed: seq<Message>)
    requires AllSized(messages) && out.Valid()
    modifies out, out.buffer
    ensures out.Valid() && (fresh(out.buffer) || out.buffer == old(out.buffer))
    ensures out.View() == AppendAll(old(out.View()), messages) && sealed == SealAll(messages)
  {
    hide Frame, Append, Seal, AppendAll, SealAll, Sized;
    sealed := [];
    ghost var goal := AppendAll(out.View(), messages);
    NothingSealed(messages);
    for i := 0 to |messages|
      invariant out.Valid() && (fresh(out.buffer) || out.buffer == old(out.buffer))
      invariant AllSized(messages[i..]) && AppendAll(out.View(), messages[i..]) == goal
      invariant sealed == SealAll(messages[..i])
    {
      EncodeNext(out.View(), messages, i);
      var buf, s := EncodeTinyPB(messages[i]);
      out.WriteToBuffer(buf[..]);
      sealed := sealed + [s];
    }
    NothingAppended(out.View(), messages);
  }

  lemma EncodeNext(b: Buf, ms: seq<Message>, i: nat)
    requires b.Valid() && i < |ms| && AllSized(ms)
    ensures AllSized(ms[i..]) && AllSized(ms[i + 1..]) && Sized(ms[i])
    ensures AppendAll(b, ms[i..]) == AppendAll(Append(b, Frame(ms[i])), ms[i + 1..])
    ensures SealAll(ms[..i + 1]) == SealAll(ms[..i]) + [Seal(ms[i])]
  {
    hide Frame, Append, Seal, Sized;
    assert ms[i..][1..] == ms[i + 1..] && ms[i..][0] == ms[i];
    assert forall m :: m in ms[i..] ==> m in ms;
    assert forall m :: m in ms[i + 1..] ==> m in ms;
  }

  lemma NothingSealed(ms: seq<Message>)
    ensures SealAll(ms[..0]) == [] && ms[0..] == ms
  {
  }

  lemma NothingAppended(b: Buf, ms: seq<Message>)
    requires b.Valid()
    ensures AppendAll(b, ms[|ms|..]) == b && ms[..|ms|] == ms
  {
  }

  // Decoding. A `Fault` is a point where the original reads outside its arrays or overflows an `int`.

  datatype Scan = Quiet | Found(start: nat, end: nat, pkLen: int) | Fault

  /** The search for a start byte whose length field leads to an end byte, from index `i` on. */
  function ScanFrom(tmp: seq<Byte>, write: nat, i: nat): (r: Scan)
    requires write <= |tmp|
    ensures r.Found? ==> i <= r.start < write && r.end < write && r.pkLen == r.end - r.start + 1
    decreases write - i
  {
    if i >= write then Quiet
    else if tmp[i] == PB_START && i + 1 < write then
      if i + 5 > |tmp| then Fault
      else
        var pkLen := GetInt32(tmp, i + 1);
        var j := i + pkLen - 1;
        if j > INT_MAX then Fault
        else if j >= write then ScanFrom(tmp, write, i + 1)
        else if j < 0 then Fault
        else if tmp[j] == PB_END then Found(i, j, pkLen)
        else ScanFrom(tmp, write, i + 1)
    else ScanFrom(tmp, write, i + 1)
  }

  datatype Field = Overrun | Text(text: seq<Byte>)

  /** The bytes of `s` up to its first NUL, as `std::string(const char*)` takes them. */
  function CString(s: seq<Byte>): seq<Byte> {
    if s == [] || s[0] == 0 then [] else [s[0]] + CString(s[1..])
  }

  /** `len` bytes copied into a zeroed array of `size`, then read back as a C string. */
  function CopyField(tmp: seq<Byte>, i: nat, len: int, size: nat): Field {
    if 0 <= len < size && i + len <= |tmp| then Text(CString(tmp[i..i + len])) else Overrun
  }

  function ReadInt(tmp: seq<Byte>, i: nat): (r: int)
    ensures i + 4 <= |tmp| ==> r == GetInt32(tmp, i)
    ensures i + 4 > |tmp| ==> r == -1
  {
    if i + 4 <= |tmp| then GetInt32(tmp, i) else -1
  }

  datatype Parse = Dropped | Parsed(message: Message) | Broken

  /** The fields of the frame found at `start..end`; a header that runs past `end` drops the frame. */
  function ParseFrame(tmp: seq<Byte>, start: nat, end: nat, pkLen: int): Parse {
    ParseId(tmp, start + 1 + 4, end, pkLen)
  }

  function ParseId(tmp: seq<Byte>, idLenAt: nat, end: nat, pkLen: int): Parse {
    if idLenAt >= end then Dropped else
    var idLen := ReadInt(tmp, idLenAt);
    var id := CopyField(tmp, idLenAt + 4, idLen, MSG_ID_ARRAY);
    if id.Overrun? then Broken else
    ParseName(tmp, idLenAt + 4 + idLen, end, pkLen, idLen, id.text)
  }

  function ParseName(tmp: seq<Byte>, nameLenAt: nat, end: nat, pkLen: int, idLen: nat, id: seq<Byte>): Parse {
    if nameLenAt >= end then Dropped else
    var nameLen := ReadInt(tmp, nameLenAt);
    var name := CopyField(tmp, nameLenAt + 4, nameLen, METHOD_NAME_ARRAY);
    if name.Overrun? then Broken else
    ParseInfo(tmp, nameLenAt + 4 + nameLen, end, pkLen, idLen, id, nameLen, name.text)
  }

  function ParseInfo(tmp: seq<Byte>, codeAt: nat, end: nat, pkLen: int, idLen: nat, id: seq<Byte>, nameLen: nat,
                     name: seq<Byte>): Parse {
    if codeAt >= end then Dropped else
    if codeAt + 4 > |tmp| then Broken else
    var infoLenAt := codeAt + 4;
    if infoLenAt >= end then Dropped else
    var infoLen := ReadInt(tmp, infoLenAt);
    var info := CopyField(tmp, infoLenAt + 4, infoLen, ERROR_INFO_ARRAY);
    if info.Overrun? then Broken else
    var dataAt := infoLenAt + 4 + infoLen;
    var dataLen := pkLen - nameLen - idLen - infoLen - 2 - 24;
    if dataLen < 0 || dataAt + dataLen > |tmp| then Broken else
    Parsed(Message(id, name, GetInt32(tmp, codeAt), info.text, tmp[dataAt..dataAt + dataLen],
                   pkLen, idLen, nameLen, infoLen, true))
  }

  /** How a call of `decode` ends, if it does: `Diverges` when a pass leaves the buffer as it found it, `Undefined`
      at a fault, `Rewinds` when a negative length has moved the read index back into consumed bytes: `DecodeLoop`
      follows the loop from there. */
  datatype Outcome = Finished | Diverges | Undefined | Rewinds

  /** One pass of the decoding loop: it stops, or goes on with what it got and the buffer it leaves. */
  datatype Pass = Stop(outcome: Outcome) | More(got: seq<Message>, next: Buf)

  /** The body of the decoding loop as it stands: whatever length was found, the read index is moved by it. */
  function LoopBody(b: Buf): (p: Pass)
    requires b.Valid()
    ensures p.More? ==> p.next.Valid()
    ensures p.Stop? ==> p.outcome.Finished? || p.outcome.Undefined?
  {
    var scan := ScanFrom(b.bytes, b.write, b.read);
    match scan
    case Quiet => Stop(Finished)
    case Fault => Stop(Undefined)
    case Found(start, end, pkLen) =>
      var parse := ParseFrame(b.bytes, start, end, pkLen);
      if parse.Broken? then Stop(Undefined)
      else More(if parse.Parsed? then [parse.message] else [], MoveRead(b, pkLen))
  }

  /** A pass told apart by what it does to the buffer: nothing, a step back, or progress. */
  function DecodePass(b: Buf): (p: Pass)
    requires b.Valid()
    ensures p.More? ==> p.next.Valid() && p == LoopBody(b)
    ensures p.More? ==> p.next.ReadAble() < b.ReadAble() || (p.next.ReadAble() == b.ReadAble() && p.next.read < b.read)
    ensures p.Stop? && !p.outcome.Finished? && !p.outcome.Undefined? ==> LoopBody(b).More?
  {
    var p := LoopBody(b);
    if p.Stop? then p
    else if p.next == b then Stop(Diverges)
    else if p.next.ReadAble() > b.ReadAble() then Stop(Rewinds)
    else MovesOn(b); p
  }

  /** The index moves by the length found, so a pass that takes nothing can only have compacted the buffer. */
  lemma MovesOn(b: Buf)
    requires b.Valid() && LoopBody(b).More?
    ensures var next := LoopBody(b).next;
            next.ReadAble() > b.ReadAble() || next.ReadAble() < b.ReadAble() || next == b || next.read < b.read
    ensures var next := LoopBody(b).next; next == b <==> next.read == b.read && next.write == b.write
  {
    hide ParseFrame, GetInt32;
    FoundInside(b.bytes, b.write, b.read);
    MoveShows(b, ScanFrom(b.bytes, b.write, b.read).pkLen);
  }

  lemma {:induction false} FoundInside(tmp: seq<Byte>, write: nat, i: nat)
    requires write <= |tmp| && ScanFrom(tmp, write, i).Found?
    ensures |tmp| >= 5
    decreases write - i
  {
    hide GetInt32;
    if !(tmp[i] == PB_START && i + 1 < write && i + 5 <= |tmp|) {
      FoundInside(tmp, write, i + 1);
    }
  }

  /** Whether a move of the read index did anything shows in the indices. */
  lemma MoveShows(b: Buf, n: int)
    requires b.Valid() && |b.bytes| >= 3 && n <= b.ReadAble()
    ensures var b' := MoveRead(b, n);
            && (b' == b <==> b'.read == b.read && b'.write == b.write)
            && (b'.ReadAble() == b.ReadAble() && b' != b ==> b'.read < b.read)
  {
  }

  datatype Decoded = Decoded(outcome: Outcome, messages: seq<Message>, rest: Buf)

  function Decode(b: Buf): (d: Decoded)
    requires b.Valid()
    ensures d.rest.Valid()
    decreases b.ReadAble(), b.read
  {
    match DecodePass(b)
    case More(got, next) => var d := Decode(next); d.(messages := got + d.messages)
    case Stop(outcome) =>
      if outcome.Rewinds? then Decoded(outcome, LoopBody(b).got, LoopBody(b).next) else Decoded(outcome, [], b)
  }

  /** The loop after at most `n` passes: stopped, or still running. */
  datatype Loop =
    | Stopped(outcome: Outcome, messages: seq<Message>, rest: Buf)
    | Running(messages: seq<Message>, buf: Buf)

  function LoopFor(b: Buf, n: nat): (l: Loop)
    requires b.Valid()
    decreases n
  {
    if n == 0 then Running([], b) else
    match LoopBody(b)
    case Stop(outcome) => Stopped(outcome, [], b)
    case More(got, next) => var l := LoopFor(next, n - 1); l.(messages := got + l.messages)
  }

  /** What diverges is the loop: a pass that leaves the buffer as it is will be made for ever, however many
      passes have been made, and each pushes the same messages once more. */
  lemma {:induction false} SpinsForEver(b: Buf, n: nat)
    requires b.Valid() && DecodePass(b) == Stop(Diverges)
    ensures LoopBody(b).More? && LoopFor(b, n).Running? && LoopFor(b, n).buf == b
    ensures |LoopFor(b, n).messages| == n * |LoopBody(b).got|
    decreases n
  {
    hide LoopBody;
    if n > 0 {
      SpinsForEver(b, n - 1);
    }
  }

  /** The passes `Decode` follows until it sees how the call ends. */
  function Passes(b: Buf): nat
    requires b.Valid()
    decreases b.ReadAble(), b.read
  {
    match DecodePass(b)
    case Stop(outcome) => if outcome.Rewinds? then 1 else 0
    case More(_, next) => 1 + Passes(next)
  }

  lemma {:induction false} PassesTaken(b: Buf)
    requires b.Valid()
    ensures var d := Decode(b);
            && LoopFor(b, Passes(b)) == Running(d.messages, d.rest)
            && (if d.outcome.Rewinds? then Passes(b) > 0 && LoopFor(b, Passes(b) - 1).Running?
                                           && LoopFor(b, Passes(b) - 1).buf.ReadAble() < d.rest.ReadAble()
                else DecodePass(d.rest) == Stop(d.outcome))
    decreases b.ReadAble(), b.read
  {
    hide LoopBody;
    if DecodePass(b).More? {
      PassesTaken(DecodePass(b).next);
    } else if DecodePass(b).outcome.Rewinds? {
      assert LoopFor(LoopBody(b).next, 0) == Running([], LoopBody(b).next) && LoopFor(b, 0) == Running([], b);
    }
  }

  lemma {:induction false} LoopGoesOn(b: Buf, i: nat, j: nat)
    requires b.Valid() && LoopFor(b, i).Running?
    ensures var l := LoopFor(b, i);
            l.buf.Valid()
            && LoopFor(b, i + j) == var e := LoopFor(l.buf, j); e.(messages := l.messages + e.messages)
    decreases i
  {
    hide LoopBody;
    if i > 0 {
      LoopGoesOn(LoopBody(b).next, i - 1, j);
    }
  }

  lemma {:induction false} RunningBefore(b: Buf, i: nat, j: nat)
    requires b.Valid() && i <= j && LoopFor(b, j).Running?
    ensures LoopFor(b, i).Running?
    decreases i
  {
    hide LoopBody;
    if i > 0 {
      RunningBefore(LoopBody(b).next, i - 1, j - 1);
    }
  }

  /** `Decode` is the loop: where it is finished or undefined the loop stops so, right after the passes followed;
      where it diverges the loop is running after any number of passes, and sits on the same buffer from then on;
      where it rewinds the loop is running too, with more to read than before. */
  lemma DecodeIsTheLoop(b: Buf, n: nat)
    requires b.Valid()
    ensures var d := Decode(b); var k := Passes(b);
            && LoopFor(b, k) == Running(d.messages, d.rest)
            && (d.outcome.Finished? || d.outcome.Undefined?
                ==> LoopFor(b, k + 1 + n) == Stopped(d.outcome, d.messages, d.rest))
            && (d.outcome.Diverges? ==> LoopFor(b, n).Running? && LoopFor(b, k + n).Running?
                                        && LoopFor(b, k + n).buf == d.rest)
            && (d.outcome.Rewinds? ==> k > 0 && LoopFor(b, k - 1).Running?
                                       && LoopFor(b, k - 1).buf.ReadAble() < d.rest.ReadAble())
  {
    hide LoopBody, Decode, Passes, DecodePass;
    var d, k := Decode(b), Passes(b);
    PassesTaken(b);
    if d.outcome.Diverges? {
      SpinsForEver(d.rest, n);
      LoopGoesOn(b, k, n);
      RunningBefore(b, n, k + n);
    } else if !d.outcome.Rewinds? {
      LoopGoesOn(b, k, 1 + n);
      LastPass(d.rest, n);
    }
  }

  lemma LastPass(b: Buf, n: nat)
    requires b.Valid() && (DecodePass(b) == Stop(Finished) || DecodePass(b) == Stop(Undefined))
    ensures LoopFor(b, 1 + n) == Stopped(DecodePass(b).outcome, [], b)
  {
    hide LoopBody;
  }

  /** The scanning loop of `decode`. */
  method FindFrame(tmp: seq<Byte>, start: nat, write: nat) returns (scan: Scan)
    requires start <= write <= |tmp|
    ensures scan == ScanFrom(tmp, write, start)
  {
    var i := start;
    while i < write
      invariant start <= i <= write
      invariant ScanFrom(tmp, write, start) == ScanFrom(tmp, write, i)
    {
      if tmp[i] == PB_START {
        if i + 1 < write {
          if i + 5 > |tmp| {
            return Fault;
          }
          var pkLen := GetInt32(tmp, i + 1);
          var j := i + pkLen - 1;
          if j > INT_MAX {
            return Fault;
          }
          if j >= write {
            i := i + 1;
            continue;
          }
          if j < 0 {
            return Fault;
          }
          if tmp[j] == PB_END {
            return Found(i, j, pkLen);
          }
        }
      }
      i := i + 1;
    }
    return Quiet;
  }

  /** The body of the decoding loop: the read index is moved by whatever length was found. The fields are read from
      the copy of the vector made before the move. */
  method DecodeOnce(buffer: TcpBuffer) returns (stop: bool, outcome: Outcome, got: seq<Message>)
    requires buffer.Valid()
    modifies buffer
    ensures buffer.Valid() && (fresh(buffer.buffer) || buffer.buffer == old(buffer.buffer))
    ensures LoopBody(old(buffer.View())) == if stop then Stop(outcome) else More(got, buffer.View())
    ensures stop ==> buffer.View() == old(buffer.View())
  {
    hide ScanFrom, ParseFrame, MoveRead;
    var tmp := buffer.buffer[..];
    var scan := FindFrame(tmp, buffer.readIndex, buffer.writeIndex);
    if scan.Quiet? {
      return true, Finished, [];
    }
    if scan.Fault? {
      return true, Undefined, [];
    }
    var parse := ParseFrame(tmp, scan.start, scan.end, scan.pkLen);
    if parse.Broken? {
      return true, Undefined, [];
    }
    buffer.MoveReadIndex(scan.pkLen);
    return false, Finished, if parse.Parsed? then [parse.message] else [];
  }
}
