/** The growable, self-compacting byte buffer of netrpc/net/tcp/tcp_buffer.cc. */
module TcpBuffers {
  import opened Bytes
  import opened Numerals

  /** The value of a buffer: the vector, the read index and the write index. */
  datatype Buf = Buf(bytes: seq<Byte>, read: nat, write: nat) {
    predicate Valid() {
      read <= write <= |bytes|
    }

    function ReadAble(): int {
      write - read
    }

    function WriteAble(): int {
      |bytes| - write
    }

    function Contents(): seq<Byte>
      requires Valid()
    {
      bytes[read..write]
    }
  }

  function Empty(size: nat): (b: Buf)
    ensures b.Valid() && b.Contents() == []
  {
    Buf(Zeros(size), 0, 0)
  }

  /** `count` readable bytes moved to the front of a zeroed vector of `size` bytes. */
  function Front(b: Buf, count: nat, size: nat): (b': Buf)
    requires b.Valid() && count <= b.ReadAble() && count <= size
    ensures b'.Valid() && b'.Contents() == b.Contents()[..count]
    ensures |b'.bytes| == size && b'.read == 0 && b'.write == count
  {
    Buf(b.bytes[b.read..b.read + count] + Zeros(size - count), 0, count)
  }

  function Resize(b: Buf, size: nat): (b': Buf)
    requires b.Valid()
    ensures b'.Valid() && |b'.bytes| == size && b'.read == 0 && b'.write == Min(size, b.ReadAble())
  {
    Front(b, Min(size, b.ReadAble()), size)
  }

  function Adjust(b: Buf): (b': Buf)
    requires b.Valid()
    ensures b'.Valid() && b'.Contents() == b.Contents() && |b'.bytes| == |b.bytes|
  {
    if b.read < |b.bytes| / 3 then b else Front(b, b.ReadAble(), |b.bytes|)
  }

  predicate Grows(b: Buf, data: seq<Byte>) {
    |data| > b.WriteAble()
  }

  /** `(int)(1.5 * (m_write_index + size))`: exact in floating point, then truncated. */
  function GrownSize(b: Buf, data: seq<Byte>): nat {
    3 * (b.write + |data|) / 2
  }

  function Overwrite(b: Buf, data: seq<Byte>): (b': Buf)
    requires b.Valid() && |data| <= b.WriteAble()
    ensures b'.Valid() && |b'.bytes| == |b.bytes| && b'.read == b.read && b'.write == b.write
  {
    Buf(b.bytes[..b.write] + data + b.bytes[b.write + |data|..], b.read, b.write)
  }

  function Append(b: Buf, data: seq<Byte>): (b': Buf)
    requires b.Valid()
    ensures b'.Valid() && b'.Contents() == b.Contents() + data
  {
    var r := if Grows(b, data) then Resize(b, GrownSize(b, data)) else b;
    Overwrite(r, data).(write := r.write + |data|)
  }

  function Drop(b: Buf, n: nat): (b': Buf)
    requires b.Valid() && n <= b.ReadAble()
    ensures b'.Valid() && b'.Contents() == b.Contents()[n..] && |b'.bytes| == |b.bytes|
    ensures b'.read == 0 || b'.read < |b'.bytes| / 3
  {
    Adjust(b.(read := b.read + n))
  }

  /** An index move is refused when the index, as a `size_t`, is not below the capacity; a negative one is huge. */
  predicate Refused(b: Buf, index: int) {
    !(0 <= index < |b.bytes|)
  }

  /** What an index move does with the new indices: compact them, unless they have crossed. */
  function Settle(b: Buf): (b': Buf)
    requires b.read <= b.write ==> b.write <= |b.bytes|
    ensures b.Valid() ==> b'.Valid()
    ensures b.read > b.write ==> b' == b
  {
    if b.read <= b.write then Adjust(b) else b
  }

  /** The indices may cross only below a third of the vector: compacting them would copy a negative count. */
  predicate Movable(b: Buf, read: int, write: int) {
    read > write ==> read < |b.bytes| / 3
  }

  function MoveRead(b: Buf, n: int): (b': Buf)
    requires b.Valid() && (Refused(b, b.read + n) || Movable(b, b.read + n, b.write))
    ensures b'.Valid() <==> Refused(b, b.read + n) || n <= b.ReadAble()
  {
    if Refused(b, b.read + n) then b else Settle(b.(read := b.read + n))
  }

  function MoveWrite(b: Buf, n: int): (b': Buf)
    requires b.Valid() && (Refused(b, b.write + n) || Movable(b, b.read, b.write + n))
    ensures b'.Valid() <==> Refused(b, b.write + n) || -n <= b.ReadAble()
  {
    if Refused(b, b.write + n) then b else Settle(b.(write := b.write + n))
  }

  /** The buffer object; `grown` and `compacted` count the bytes its two kinds of copying move. */
  class TcpBuffer {
    var buffer: array<Byte>
    var readIndex: nat
    var writeIndex: nat
    ghost var grown: nat
    ghost var compacted: nat

    ghost predicate Valid()
      reads this
    {
      readIndex <= writeIndex <= buffer.Length
    }

    ghost function View(): (b: Buf)
      reads this, buffer
      ensures Valid() ==> b.Valid()
    {
      Buf(buffer[..], readIndex, writeIndex)
    }

    constructor (size: nat)
      ensures Valid() && View() == Empty(size) && fresh(buffer)
      ensures grown == compacted == 0
    {
      buffer := new Byte[size](_ => 0);
      readIndex, writeIndex := 0, 0;
      grown, compacted := 0, 0;
      new;
      assert buffer[..] == Zeros(size);
    }

    function ReadAble(): int
      reads this
    {
      writeIndex - readIndex
    }

    function WriteAble(): int
      reads this
    {
      buffer.Length - writeIndex
    }

    /** Copies the first `count` readable bytes to the front of a fresh zeroed vector. */
    method CopyToFront(count: nat, size: nat)
      requires Valid() && count <= ReadAble() && count <= size
      modifies this
      ensures Valid() && fresh(buffer) && View() == Front(old(View()), count, size)
      ensures grown == old(grown) && compacted == old(compacted)
    {
      var tmp := new Byte[size](_ => 0);
      forall i | 0 <= i < count {
        tmp[i] := buffer[readIndex + i];
      }
      assert tmp[..] == buffer[..][readIndex..readIndex + count] + Zeros(size - count);
      buffer := tmp;
      readIndex, writeIndex := 0, count;
    }

    method ResizeBuffer(newSize: nat)
      requires Valid()
      modifies this
      ensures Valid() && fresh(buffer) && View() == Resize(old(View()), newSize)
      ensures grown == old(grown) && compacted == old(compacted)
    {
      CopyToFront(Min(newSize, ReadAble()), newSize);
    }

    method AdjustBuffer()
      requires writeIndex <= buffer.Length && Movable(View(), readIndex, writeIndex)
      modifies this
      ensures fresh(buffer) || buffer == old(buffer)
      ensures View() == Settle(old(View())) && (old(Valid()) ==> Valid() && View() == Adjust(old(View())))
      ensures grown == old(grown) && compacted == old(compacted) + CompactCost(old(View()))
    {
      if readIndex < buffer.Length / 3 {
        return;
      }
      compacted := compacted + ReadAble();
      CopyToFront(ReadAble(), buffer.Length);
    }

    method WriteToBuffer(data: seq<Byte>)
      requires Valid()
      modifies this, buffer
      ensures Valid() && (fresh(buffer) || buffer == old(buffer))
      ensures View() == Append(old(View()), data)
      ensures grown == old(grown) + GrowCost(old(View()), data) && compacted == old(compacted)
    {
      hide Resize, Overwrite;
      if |data| > WriteAble() {
        grown := grown + ReadAble();
        ResizeBuffer(3 * (writeIndex + |data|) / 2);
      }
      CopyIn(data);
      writeIndex := writeIndex + |data|;
    }

    /** `memcpy` behind the readable bytes. */
    method CopyIn(data: seq<Byte>)
      requires Valid() && |data| <= WriteAble()
      modifies buffer
      ensures Valid() && View() == Overwrite(old(View()), data)
    {
      ghost var was := buffer[..];
      forall i | 0 <= i < |data| {
        buffer[writeIndex + i] := data[i];
      }
      assert buffer[..] == was[..writeIndex] + data + was[writeIndex + |data|..];
    }

    /** The bytes read, or `re` untouched when there is nothing to read. */
    method ReadFromBuffer(re: seq<Byte>, size: nat) returns (out: seq<Byte>)
      requires Valid()
      modifies this
      ensures Valid() && (fresh(buffer) || buffer == old(buffer))
      ensures var b := old(View()); var n := Min(b.ReadAble(), size);
              if b.ReadAble() == 0 then out == re && View() == b
              else out == b.Contents()[..n] && View() == Drop(b, n)
      ensures grown == old(grown) && compacted == old(compacted) + CompactedBy(old(View()), Read(size))
    {
      hide Adjust;
      if ReadAble() == 0 {
        return re;
      }
      var readSize := if ReadAble() > size then size else ReadAble();
      out := CopyOut(readSize);
      readIndex := readIndex + readSize;
      AdjustBuffer();
    }

    /** `memcpy` from the front of the readable bytes. */
    method CopyOut(n: nat) returns (out: seq<Byte>)
      requires Valid() && n <= ReadAble()
      ensures out == View().Contents()[..n]
    {
      out := buffer[readIndex..readIndex + n];
      FrontOfSlice(buffer[..], readIndex, writeIndex, n);
    }

    /** Any `int` size, forwards or back, except a move that makes the compaction copy a negative count. */
    method MoveReadIndex(size: int)
      requires Valid() && (Refused(View(), readIndex + size) || Movable(View(), readIndex + size, writeIndex))
      modifies this
      ensures fresh(buffer) || buffer == old(buffer)
      ensures View() == MoveRead(old(View()), size)
      ensures grown == old(grown)
      ensures var b := old(View()); var moved := !Refused(b, b.read + size);
              compacted == old(compacted) + if moved then CompactCost(b.(read := b.read + size)) else 0
    {
      hide Adjust;
      var j := readIndex + size;
      if j < 0 || j >= buffer.Length {
        return;
      }
      readIndex := j;
      AdjustBuffer();
    }

    method MoveWriteIndex(size: int)
      requires Valid() && (Refused(View(), writeIndex + size) || Movable(View(), readIndex, writeIndex + size))
      modifies this
      ensures fresh(buffer) || buffer == old(buffer)
      ensures View() == MoveWrite(old(View()), size)
      ensures grown == old(grown)
      ensures var b := old(View()); var moved := !Refused(b, b.write + size);
              compacted == old(compacted) + if moved then CompactCost(b.(write := b.write + size)) else 0
    {
      hide Adjust;
      var j := writeIndex + size;
      if j < 0 || j >= buffer.Length {
        return;
      }
      writeIndex := j;
      AdjustBuffer();
    }
  }

  lemma FrontOfSlice(s: seq<Byte>, lo: nat, hi: nat, n: nat)
    requires lo <= hi <= |s| && n <= hi - lo
    ensures s[lo..hi][..n] == s[lo..lo + n]
  {
  }

  /** Bytes copied when a write has to grow the vector. */
  function GrowCost(b: Buf, data: seq<Byte>): int {
    if Grows(b, data) then b.ReadAble() else 0
  }

  /** Bytes copied when an adjustment compacts the vector. */
  function CompactCost(b: Buf): int {
    if b.read < |b.bytes| / 3 then 0 else b.ReadAble()
  }

  // Runs.

  datatype Op =
    | Write(data: seq<Byte>)      // writeToBuffer
    | Read(size: nat)             // readFromBuffer
    | Consume(size: nat)          // moveReadIndex
    | Receive(data: seq<Byte>)    // bytes put at the write index from outside, then moveWriteIndex
    | Reserve(size: nat)          // resizeBuffer
    | Compact                     // adjustBuffer

  /** What the callers owe: index moves within the readable and free bounds, no resize that cuts data. */
  predicate Legal(b: Buf, op: Op) {
    match op
    case Consume(n) => n <= b.ReadAble()
    case Receive(data) => |data| <= b.WriteAble()
    case Reserve(n) => n >= b.ReadAble()
    case _ => true
  }

  function Step(b: Buf, op: Op): (b': Buf)
    requires b.Valid() && Legal(b, op)
    ensures b'.Valid()
  {
    match op
    case Write(data) => Append(b, data)
    case Read(n) => if b.ReadAble() == 0 then b else Drop(b, Min(b.ReadAble(), n))
    case Consume(n) => MoveRead(b, n)
    case Receive(data) => MoveWrite(Overwrite(b, data), |data|)
    case Reserve(n) => Resize(b, n)
    case Compact => Adjust(b)
  }

  /** The index moves refuse an index equal to the capacity. */
  predicate Accepted(b: Buf, op: Op) {
    match op
    case Consume(n) => b.read + n < |b.bytes|
    case Receive(data) => b.write + |data| < |b.bytes|
    case _ => true
  }

  /** The same operation on a plain first-in first-out queue of bytes. */
  function Fifo(q: seq<Byte>, op: Op): seq<Byte> {
    match op
    case Write(data) => q + data
    case Receive(data) => q + data
    case Read(n) => q[Min(|q|, n)..]
    case Consume(n) => q[Min(|q|, n)..]
    case Reserve(_) => q
    case Compact => q
  }

  function Amount(op: Op): nat {
    match op
    case Write(data) => |data|
    case Receive(data) => |data|
    case Read(n) => n
    case Consume(n) => n
    case Reserve(_) => 0
    case Compact => 0
  }

  /** One operation is the queue operation exactly when its index move is not refused (or moves nothing). */
  lemma StepIsFifo(b: Buf, op: Op)
    requires b.Valid() && Legal(b, op)
    ensures Step(b, op).Contents() == Fifo(b.Contents(), op) <==> Accepted(b, op) || Amount(op) == 0
    ensures !Accepted(b, op) ==> Step(b, op).Contents() == b.Contents()
  {
    hide Adjust, MoveRead, MoveWrite, Overwrite, Settle;
    match op
    case Write(data) =>
    case Read(n) =>
    case Consume(n) => ConsumeMoves(b, n);
    case Receive(data) =>
      ReceiveMoves(b, data);
      assert |b.Contents() + data| == |b.Contents()| + |data|;
    case Reserve(n) =>
    case Compact =>
  }

  lemma ConsumeMoves(b: Buf, n: nat)
    requires b.Valid() && n <= b.ReadAble()
    ensures MoveRead(b, n) == if b.read + n < |b.bytes| then Drop(b, n) else b
    ensures b.read + n < |b.bytes| ==> MoveRead(b, n).ReadAble() == b.ReadAble() - n
  {
  }

  lemma ReceiveMoves(b: Buf, data: seq<Byte>)
    requires b.Valid() && |data| <= b.WriteAble()
    ensures MoveWrite(Overwrite(b, data), |data|).Contents()
            == if b.write + |data| < |b.bytes| then b.Contents() + data else b.Contents()
  {
    var o := Overwrite(b, data);
    assert o.Contents() == b.Contents();
    if b.write + |data| < |b.bytes| {
      assert o.(write := o.write + |data|).Contents() == b.Contents() + data;
    }
  }

  /** A whole run: the final buffer, everything that was put in, taken out and copied on the way, and the
      capacity that shrinking resizes gave up. */
  datatype Ledger = Ledger(buf: Buf, put: seq<Byte>, taken: seq<Byte>, grown: int, compacted: int, givenUp: int)

  predicate LegalRun(b: Buf, ops: seq<Op>)
    requires b.Valid()
    decreases |ops|
  {
    ops == [] || (Legal(b, ops[0]) && LegalRun(Step(b, ops[0]), ops[1..]))
  }

  function Put(b: Buf, op: Op): seq<Byte> {
    match op
    case Write(data) => data
    case Receive(data) => if Accepted(b, op) then data else []
    case _ => []
  }

  function Taken(b: Buf, op: Op): seq<Byte>
    requires b.Valid() && Legal(b, op)
  {
    match op
    case Read(n) => b.Contents()[..Min(b.ReadAble(), n)]
    case Consume(n) => if Accepted(b, op) then b.Contents()[..n] else []
    case _ => []
  }

  /** Bytes a single operation copies by compaction. */
  function CompactedBy(b: Buf, op: Op): int
    requires b.Valid() && Legal(b, op)
  {
    match op
    case Read(n) => if b.ReadAble() == 0 then 0 else CompactCost(b.(read := b.read + Min(b.ReadAble(), n)))
    case Consume(n) => if Accepted(b, op) then CompactCost(b.(read := b.read + n)) else 0
    case Receive(data) => if Accepted(b, op) then CompactCost(b.(write := b.write + |data|)) else 0
    case Compact => CompactCost(b)
    case _ => 0
  }

  /** Capacity given up by a resize below the present one. */
  function GivenUp(b: Buf, op: Op): int {
    if op.Reserve? then Max(0, |b.bytes| - op.size) else 0
  }

  function Record(l: Ledger, op: Op): Ledger
    requires l.buf.Valid() && Legal(l.buf, op)
  {
    Ledger(Step(l.buf, op), l.put + Put(l.buf, op), l.taken + Taken(l.buf, op),
           l.grown + (if op.Write? then GrowCost(l.buf, op.data) else 0),
           l.compacted + CompactedBy(l.buf, op), l.givenUp + GivenUp(l.buf, op))
  }

  function Run(l: Ledger, ops: seq<Op>): Ledger
    requires l.buf.Valid() && LegalRun(l.buf, ops)
    decreases |ops|
  {
    if ops == [] then l else Run(Record(l, ops[0]), ops[1..])
  }

  function Open(b: Buf): Ledger {
    Ledger(b, [], [], 0, 0, 0)
  }

  /** One operation on the object. */
  method Perform(buffer: TcpBuffer, op: Op)
    requires buffer.Valid() && Legal(buffer.View(), op)
    modifies buffer, buffer.buffer
    ensures buffer.Valid() && (fresh(buffer.buffer) || buffer.buffer == old(buffer.buffer))
    ensures buffer.View() == Step(old(buffer.View()), op)
    ensures buffer.grown == old(buffer.grown) + if op.Write? then GrowCost(old(buffer.View()), op.data) else 0
    ensures buffer.compacted == old(buffer.compacted) + CompactedBy(old(buffer.View()), op)
  {
    hide Adjust, Resize, Overwrite, Append, MoveRead, MoveWrite, Drop;
    match op {
      case Write(data) => buffer.WriteToBuffer(data);
      case Read(n) => var _ := buffer.ReadFromBuffer([], n);
      case Consume(n) => buffer.MoveReadIndex(n);
      case Receive(data) =>
        buffer.CopyIn(data);
        buffer.MoveWriteIndex(|data|);
      case Reserve(n) => buffer.ResizeBuffer(n);
      case Compact => buffer.AdjustBuffer();
    }
  }

  /** The object over a whole run: its bytes and what it has copied are those of the ledger. */
  method PerformAll(buffer: TcpBuffer, ops: seq<Op>)
    requires buffer.Valid() && LegalRun(buffer.View(), ops)
    modifies buffer, buffer.buffer
    ensures buffer.Valid()
    ensures var l := Run(Open(old(buffer.View())), ops);
            && buffer.View() == l.buf && buffer.grown == old(buffer.grown) + l.grown
            && buffer.compacted == old(buffer.compacted) + l.compacted
  {
    hide Legal, Step, CompactedBy, GrowCost, GivenUp, Put, Taken, Run;
    ghost var l := Open(buffer.View());
    ghost var grown, compacted := buffer.grown, buffer.compacted;
    ghost var goal := Run(l, ops);
    for i := 0 to |ops|
      invariant buffer.Valid() && (fresh(buffer.buffer) || buffer.buffer == old(buffer.buffer))
      invariant l.buf == buffer.View() && LegalRun(l.buf, ops[i..]) && Run(l, ops[i..]) == goal
      invariant buffer.grown == grown + l.grown && buffer.compacted == compacted + l.compacted
    {
      RunOn(l, ops[i..]);
      assert ops[i..][0] == ops[i] && ops[i..][1..] == ops[i + 1..];
      Perform(buffer, ops[i]);
      l := Record(l, ops[i]);
    }
    RunEnd(l, ops[|ops|..]);
  }

  lemma RunOn(l: Ledger, ops: seq<Op>)
    requires l.buf.Valid() && ops != [] && LegalRun(l.buf, ops)
    ensures Legal(l.buf, ops[0]) && LegalRun(Step(l.buf, ops[0]), ops[1..])
    ensures Run(l, ops) == Run(Record(l, ops[0]), ops[1..])
  {
    hide Legal, Step, CompactedBy, GrowCost, GivenUp, Put, Taken;
  }

  lemma RunEnd(l: Ledger, ops: seq<Op>)
    requires l.buf.Valid() && ops == []
    ensures LegalRun(l.buf, ops) && Run(l, ops) == l
  {
  }

  /** Nothing is lost, duplicated or reordered: held at the start ++ put == taken ++ held at the end. */
  lemma RunIsFifo(b: Buf, ops: seq<Op>)
    requires b.Valid() && LegalRun(b, ops)
    ensures var l := Run(Open(b), ops);
            l.buf.Valid() && b.Contents() + l.put == l.taken + l.buf.Contents()
  {
    RunConserves(b.Contents(), Open(b), ops);
  }

  lemma {:induction false} RunConserves(q: seq<Byte>, l: Ledger, ops: seq<Op>)
    requires l.buf.Valid() && LegalRun(l.buf, ops)
    requires q + l.put == l.taken + l.buf.Contents()
    ensures var l' := Run(l, ops); l'.buf.Valid() && q + l'.put == l'.taken + l'.buf.Contents()
    decreases |ops|
  {
    if ops != [] {
      StepConserves(l.buf, ops[0]);
      Regroup(q, l.put, l.taken, l.buf.Contents(), Put(l.buf, ops[0]), Taken(l.buf, ops[0]),
              Step(l.buf, ops[0]).Contents());
      RunConserves(q, Record(l, ops[0]), ops[1..]);
    }
  }

  lemma StepConserves(b: Buf, op: Op)
    requires b.Valid() && Legal(b, op)
    ensures b.Contents() + Put(b, op) == Taken(b, op) + Step(b, op).Contents()
  {
    StepIsFifo(b, op);
    QueueConserves(b.Contents(), op, Accepted(b, op), Step(b, op).Contents(), Put(b, op), Taken(b, op));
  }

  lemma QueueConserves(q: seq<Byte>, op: Op, accepted: bool, q': seq<Byte>, put: seq<Byte>, taken: seq<Byte>)
    requires op.Consume? ==> op.size <= |q|
    requires q' == if accepted then Fifo(q, op) else q
    requires put == if (op.Write? || op.Receive?) && accepted then op.data else []
    requires taken == if (op.Read? || op.Consume?) && accepted then q[..Min(|q|, op.size)] else []
    ensures q + put == taken + q'
  {
    match op
    case Write(data) =>
    case Receive(data) =>
    case Read(n) => assert q == q[..Min(|q|, n)] + q[Min(|q|, n)..];
    case Consume(n) => assert q == q[..n] + q[n..];
    case Reserve(_) =>
    case Compact =>
  }

  lemma Regroup(q: seq<Byte>, put: seq<Byte>, taken: seq<Byte>, held: seq<Byte>, p: seq<Byte>, t: seq<Byte>,
                held': seq<Byte>)
    requires q + put == taken + held && held + p == t + held'
    ensures q + (put + p) == taken + t + held'
  {
    assert q + (put + p) == (q + put) + p;
    assert (taken + held) + p == taken + (held + p);
    assert taken + (t + held') == taken + t + held';
  }

  // Amortised cost.

  /** No explicit resize leaves fewer than three bytes, of which a third is nothing. */
  predicate KeepsThree(ops: seq<Op>) {
    forall op :: op in ops && op.Reserve? ==> op.size >= 3
  }

  /** The credit argument: what growth has cost plus what the filled part may still cost is paid by writes and
      by the capacity given up, and what compaction has cost is paid by the consumed bytes that are no longer a
      dead prefix. */
  predicate Paid(l: Ledger) {
    && |l.buf.bytes| >= 3
    && 3 * l.buf.read < |l.buf.bytes|
    && l.grown + Max(0, 3 * l.buf.write - 2 * |l.buf.bytes|) <= 3 * |l.put| + 2 * l.givenUp
    && l.compacted + 4 * l.buf.read <= 4 * |l.taken|
  }

  /** An adjustment is paid by the dead prefix it removes. */
  lemma AdjustPaid(b: Buf)
    requires b.Valid() && |b.bytes| >= 3
    ensures var b' := Adjust(b); b'.write <= b.write && 3 * b'.read < |b'.bytes| == |b.bytes|
                                 && CompactCost(b) + 4 * b'.read <= 4 * b.read
  {
  }

  lemma AppendPaid(b: Buf, data: seq<Byte>)
    requires b.Valid() && |b.bytes| >= 3 && 3 * b.read < |b.bytes|
    ensures var b' := Append(b, data);
            && |b'.bytes| >= 3 && b'.read <= b.read && 3 * b'.read < |b'.bytes|
            && GrowCost(b, data) + Max(0, 3 * b'.write - 2 * |b'.bytes|)
               <= 3 * |data| + Max(0, 3 * b.write - 2 * |b.bytes|)
  {
  }

  lemma StepPaid(l: Ledger, op: Op)
    requires l.buf.Valid() && Legal(l.buf, op) && Paid(l) && (op.Reserve? ==> op.size >= 3)
    ensures Paid(Record(l, op))
  {
    OperationPaid(l.buf, op);
    assert |l.put + Put(l.buf, op)| == |l.put| + |Put(l.buf, op)|;
    assert |l.taken + Taken(l.buf, op)| == |l.taken| + |Taken(l.buf, op)|;
  }

  /** What one operation adds to each side of the account. */
  predicate Settled(b: Buf, b': Buf, grown: int, compacted: int, put: int, taken: int, givenUp: int) {
    && |b'.bytes| >= 3 && 3 * b'.read < |b'.bytes|
    && grown + Max(0, 3 * b'.write - 2 * |b'.bytes|)
       <= 3 * put + 2 * givenUp + Max(0, 3 * b.write - 2 * |b.bytes|)
    && compacted + 4 * b'.read <= 4 * taken + 4 * b.read
  }

  lemma OperationPaid(b: Buf, op: Op)
    requires b.Valid() && Legal(b, op) && |b.bytes| >= 3 && 3 * b.read < |b.bytes|
    requires op.Reserve? ==> op.size >= 3
    ensures Settled(b, Step(b, op), if op.Write? then GrowCost(b, op.data) else 0, CompactedBy(b, op),
                    |Put(b, op)|, |Taken(b, op)|, GivenUp(b, op))
  {
    if op.Read? || op.Consume? {
      TakingPaid(b, op);
    } else {
      PuttingPaid(b, op);
    }
  }

  lemma PuttingPaid(b: Buf, op: Op)
    requires b.Valid() && Legal(b, op) && |b.bytes| >= 3 && 3 * b.read < |b.bytes|
    requires !op.Read? && !op.Consume? && (op.Reserve? ==> op.size >= 3)
    ensures Settled(b, Step(b, op), if op.Write? then GrowCost(b, op.data) else 0, CompactedBy(b, op), |Put(b, op)|, 0,
                    GivenUp(b, op))
  {
    hide Append, Adjust, Resize, MoveWrite, CompactCost, GrowCost, Accepted;
    match op
    case Write(data) => AppendPaid(b, data);
    case Receive(data) => ReceivePaid(b, data);
    case Reserve(n) =>
    case Compact => AdjustPaid(b);
  }

  lemma TakingPaid(b: Buf, op: Op)
    requires b.Valid() && Legal(b, op) && |b.bytes| >= 3 && 3 * b.read < |b.bytes|
    requires op.Read? || op.Consume?
    ensures Settled(b, Step(b, op), 0, CompactedBy(b, op), 0, |Taken(b, op)|, 0)
  {
    hide Settled, Drop, MoveRead, CompactCost, Accepted;
    var n := Min(b.ReadAble(), op.size);
    TakesWhen(b, op);
    DropPaid(b, n);
    NothingPaid(b);
    ConsumeMoves(b, n);
  }

  lemma TakesWhen(b: Buf, op: Op)
    requires b.Valid() && Legal(b, op) && (op.Read? || op.Consume?)
    ensures Accepted(b, op) <==> op.Read? || b.read + Min(b.ReadAble(), op.size) < |b.bytes|
  {
  }

  lemma NothingPaid(b: Buf)
    requires b.Valid() && |b.bytes| >= 3 && 3 * b.read < |b.bytes|
    ensures Settled(b, b, 0, 0, 0, 0, 0)
  {
  }

  lemma DropPaid(b: Buf, n: nat)
    requires b.Valid() && n <= b.ReadAble() && |b.bytes| >= 3
    ensures Settled(b, Drop(b, n), 0, CompactCost(b.(read := b.read + n)), 0, n, 0)
  {
    AdjustPaid(b.(read := b.read + n));
  }

  lemma ReceivePaid(b: Buf, data: seq<Byte>)
    requires b.Valid() && Legal(b, Receive(data)) && |b.bytes| >= 3 && 3 * b.read < |b.bytes|
    ensures Settled(b, Step(b, Receive(data)), 0, CompactedBy(b, Receive(data)), |Put(b, Receive(data))|, 0, 0)
  {
    hide Overwrite, Adjust;
    var moved := Overwrite(b, data).(write := b.write + |data|);
    assert CompactCost(moved) == CompactCost(b.(write := b.write + |data|));
    AdjustPaid(moved);
  }

  lemma {:induction false} RunPaid(l: Ledger, ops: seq<Op>)
    requires l.buf.Valid() && LegalRun(l.buf, ops) && KeepsThree(ops) && Paid(l)
    ensures Paid(Run(l, ops))
    decreases |ops|
  {
    if ops != [] {
      StepPaid(l, ops[0]);
      RunPaid(Record(l, ops[0]), ops[1..]);
    }
  }

  /** Growth copies at most three bytes for each byte put in and two for each byte of capacity given up,
      compaction at most four for each taken out, and the dead prefix always stays below a third of the vector. */
  lemma AmortisedCost(size: nat, ops: seq<Op>)
    requires size >= 3
    requires LegalRun(Empty(size), ops) && KeepsThree(ops)
    ensures var l := Run(Open(Empty(size)), ops);
            && l.grown <= 3 * |l.put| + 2 * l.givenUp && l.compacted <= 4 * |l.taken|
            && 3 * l.buf.read < |l.buf.bytes|
  {
    RunPaid(Open(Empty(size)), ops);
  }

  /** `k` times: a byte is written into a full buffer of `n` bytes, which is then cut back to what it holds. */
  function Tighten(n: nat, k: nat): seq<Op>
    decreases k
  {
    if k == 0 then [] else [Write([0]), Reserve(n + 1)] + Tighten(n + 1, k - 1)
  }

  predicate Full(b: Buf, n: nat) {
    b.read == 0 && b.write == n == |b.bytes|
  }

  lemma TightenOnce(l: Ledger, n: nat)
    requires l.buf.Valid() && Full(l.buf, n) && n >= 1
    ensures Legal(l.buf, Write([0])) && Legal(Record(l, Write([0])).buf, Reserve(n + 1))
    ensures var l' := Record(Record(l, Write([0])), Reserve(n + 1));
            Full(l'.buf, n + 1) && l'.grown == l.grown + n && |l'.put| == |l.put| + 1
  {
  }

  lemma {:induction false} TightenCopies(l: Ledger, n: nat, k: nat)
    requires l.buf.Valid() && Full(l.buf, n) && n >= 1
    ensures LegalRun(l.buf, Tighten(n, k))
    ensures Run(l, Tighten(n, k)).grown >= l.grown + k * n && |Run(l, Tighten(n, k)).put| == |l.put| + k
    decreases k
  {
    hide Step, Record, Legal, Full, Run, LegalRun;
    if k > 0 {
      TightenOnce(l, n);
      RecordedIsValid(l, Write([0]));
      RecordedIsValid(Record(l, Write([0])), Reserve(n + 1));
      var l' := Record(Record(l, Write([0])), Reserve(n + 1));
      TightenCopies(l', n + 1, k - 1);
      RunTwo(l, Write([0]), Reserve(n + 1), Tighten(n + 1, k - 1));
      assert k * n == n + (k - 1) * n <= n + (k - 1) * (n + 1);
    } else {
      RunNone(l);
    }
  }

  lemma RecordedIsValid(l: Ledger, op: Op)
    requires l.buf.Valid() && Legal(l.buf, op)
    ensures Record(l, op).buf.Valid() && Record(l, op).buf == Step(l.buf, op)
  {
  }

  lemma RunNone(l: Ledger)
    requires l.buf.Valid()
    ensures LegalRun(l.buf, []) && Run(l, []) == l
  {
  }

  lemma RunOne(l: Ledger, op: Op, rest: seq<Op>)
    requires l.buf.Valid() && Legal(l.buf, op) && LegalRun(Step(l.buf, op), rest)
    ensures LegalRun(l.buf, [op] + rest) && Run(l, [op] + rest) == Run(Record(l, op), rest)
  {
    hide Step, Legal;
    assert ([op] + rest)[1..] == rest;
  }

  lemma RunTwo(l: Ledger, op: Op, next: Op, rest: seq<Op>)
    requires l.buf.Valid() && Legal(l.buf, op) && Legal(Step(l.buf, op), next)
    requires LegalRun(Step(Step(l.buf, op), next), rest)
    ensures LegalRun(l.buf, [op, next] + rest)
    ensures Run(l, [op, next] + rest) == Run(Record(Record(l, op), next), rest)
  {
    hide Step, Legal, Record;
    RecordedIsValid(l, op);
    RecordedIsValid(Record(l, op), next);
    RunOne(Record(l, op), next, rest);
    RunOne(l, op, [next] + rest);
    assert [op] + ([next] + rest) == [op, next] + rest;
  }

  /** Without the charge for capacity given up no bound holds: for every factor there is a run from an empty
      buffer that copies more than that many bytes for each byte put in. */
  lemma ShrinkingIsCharged(factor: nat)
    ensures exists size: nat, ops: seq<Op> ::
              size >= 3 && LegalRun(Empty(size), ops) && KeepsThree(ops)
              && Run(Open(Empty(size)), ops).grown > factor * |Run(Open(Empty(size)), ops).put|
  {
    hide Step, Record, Legal, Run, LegalRun, Tighten;
    var n := 2 * factor + 3;
    var l := Open(Empty(n));
    var fill := Write(Zeros(n));
    FilledUp(n);
    TightenCopies(Record(l, fill), n, n);
    RecordedIsValid(l, fill);
    RunOne(l, fill, Tighten(n, n));
    TightenKeepsThree(n, n);
    var ops := [fill] + Tighten(n, n);
    assert KeepsThree(ops);
    assert factor * (2 * n) == (n - 3) * n < n * n;
    assert Run(l, ops).grown > factor * |Run(l, ops).put|;
  }

  lemma FilledUp(n: nat)
    ensures var l := Open(Empty(n)); var fill := Write(Zeros(n));
            && Legal(l.buf, fill) && Full(Record(l, fill).buf, n)
            && Record(l, fill).grown == 0 && |Record(l, fill).put| == n
  {
    hide Resize, Overwrite, CompactedBy, Taken;
    assert [] + Zeros(n) == Zeros(n);
  }

  lemma {:induction false} TightenKeepsThree(n: nat, k: nat)
    requires n >= 3
    ensures KeepsThree(Tighten(n, k))
    decreases k
  {
    if k > 0 {
      TightenKeepsThree(n + 1, k - 1);
    }
  }

  /** Below three bytes every adjustment copies, whether or not anything was taken out. */
  lemma {:induction false} TinyVectorsCopy(l: Ledger, k: nat)
    requires l.buf.Valid() && l.buf.read == 0 && |l.buf.bytes| < 3
    ensures LegalRun(l.buf, seq(k, _ => Compact))
    ensures var l' := Run(l, seq(k, _ => Compact));
            l'.compacted == l.compacted + k * l.buf.write && l'.taken == l.taken
    decreases k
  {
    hide Step, Record, Legal, Run, LegalRun;
    if k > 0 {
      var rest := seq(k - 1, _ => Compact);
      assert seq(k, _ => Compact) == [Compact] + rest;
      TinyCompact(l);
      TinyVectorsCopy(Record(l, Compact), k - 1);
      RecordedIsValid(l, Compact);
      RunOne(l, Compact, rest);
      assert k * l.buf.write == l.buf.write + (k - 1) * l.buf.write;
    } else {
      assert seq(0, _ => Compact) == [];
      RunNone(l);
    }
  }

  lemma TinyCompact(l: Ledger)
    requires l.buf.Valid() && l.buf.read == 0 && |l.buf.bytes| < 3
    ensures Legal(l.buf, Compact)
    ensures var l' := Record(l, Compact);
            && l'.buf.Valid() && l'.buf.read == 0 && |l'.buf.bytes| < 3 && l'.buf.write == l.buf.write
            && l'.compacted == l.compacted + l.buf.write && l'.taken == l.taken
  {
  }
}
