/** MD5 as netrpc/common/enc/md5.cpp and md5.h compute it, and the definition of RFC 1321 beside it. */
module Md5 {

  import opened Bytes
  import opened Md5Padding
  import opened Md5Tables
  import opened Words

  datatype Regs = Regs(a: Word, b: Word, c: Word, d: Word)

  const INIT := Regs(0x67452301, 0xEFCDAB89, 0x98BADCFE, 0x10325476)

  // The code.

  function F(x: Word, y: Word, z: Word): Word { (x & y) | (!x & z) }
  function G(x: Word, y: Word, z: Word): Word { (x & z) | (y & !z) }
  function H(x: Word, y: Word, z: Word): Word { x ^ y ^ z }
  function I(x: Word, y: Word, z: Word): Word { y ^ (x | !z) }

  function T(i: Step): (c: Word)
    ensures c == Constant(i) as Word
  {
    assert T_TABLE[i / 16][i % 16] == Constant(i);
    T_TABLE[i / 16][i % 16] as Word
  }

  function X(i: Step): (k: nat)
    ensures k == K(i) < 16
  {
    XIsK(i);
    X_TABLE[i / 16][i % 16]
  }

  function S(i: Step): (s: nat)
    ensures s == Amount(i)
    ensures s in {7, 12, 17, 22} || s in {5, 9, 14, 20} || s in {4, 11, 16, 23} || s in {6, 10, 15, 21}
  {
    SIsAmount(i);
    S_TABLE[i / 16][i % 16]
  }

  /** The end of each of `FF`, `GG`, `HH`, `II`: the new first register. */
  function Turn(b: Word, temp: Word, i: Step): Word {
    Add(b, ShiftBothWays(temp, S(i)))
  }

  function FF(a: Word, b: Word, c: Word, d: Word, x: Word, i: Step): Word { Turn(b, Sum(F(b, c, d), a, x, T(i)), i) }
  function GG(a: Word, b: Word, c: Word, d: Word, x: Word, i: Step): Word { Turn(b, Sum(G(b, c, d), a, x, T(i)), i) }
  function HH(a: Word, b: Word, c: Word, d: Word, x: Word, i: Step): Word { Turn(b, Sum(H(b, c, d), a, x, T(i)), i) }
  function II(a: Word, b: Word, c: Word, d: Word, x: Word, i: Step): Word { Turn(b, Sum(I(b, c, d), a, x, T(i)), i) }

  // Section 3.4 of RFC 1321, step by step: all four registers move round at every step.

  /** The auxiliary function of step `t`. */
  function Aux(t: Step, x: Word, y: Word, z: Word): Word {
    if t < 16 then Choose(x, y, z)
    else if t < 32 then Choose(z, x, y)
    else if t < 48 then Choose(z, !(x ^ y), x ^ y)
    else Choose(z, x ^ y, !y)
  }

  function RotationOf(t: Step): (s: nat)
    ensures s == Amount(t) < 32
  {
    SIsAmount(t);
    Amount(t)
  }

  function RfcStep(r: Regs, t: Step, x: Word): Regs {
    Regs(r.d, Add(r.b, Rotate(Sum(r.a, Aux(t, r.b, r.c, r.d), x, Constant(t) as Word), RotationOf(t))), r.b, r.c)
  }

  /** A block is 64 octets; its words are little-endian. */
  type Block = s: seq<Byte> | |s| == 64 witness seq(64, _ => 0)

  function WordAt(block: Block, k: nat): Word
    requires k < 16
  {
    FromOctets(block[4 * k], block[4 * k + 1], block[4 * k + 2], block[4 * k + 3])
  }

  /** The words of a block are made of its octets in order. */
  lemma WordOctets(block: Block, k: nat)
    requires k < 16
    ensures Octets(WordAt(block, k)) == block[4 * k..4 * k + 4]
  {
    hide Octets, FromOctets;
    OctetsBack(block[4 * k], block[4 * k + 1], block[4 * k + 2], block[4 * k + 3]);
  }

  lemma InitOctets()
    ensures Octets(INIT.a) == [0x01, 0x23, 0x45, 0x67] && Octets(INIT.b) == [0x89, 0xAB, 0xCD, 0xEF]
    ensures Octets(INIT.c) == [0xFE, 0xDC, 0xBA, 0x98] && Octets(INIT.d) == [0x76, 0x54, 0x32, 0x10]
  {
    hide Octets;
    InitialOctets();
  }

  function KBound(t: Step): (k: nat)
    ensures k == K(t) < 16
  {
    K(t)
  }

  function RfcSteps(r: Regs, block: Block, n: nat): Regs
    requires n <= 64
  {
    if n == 0 then r else RfcStep(RfcSteps(r, block, n - 1), n - 1, WordAt(block, KBound(n - 1)))
  }

  function Plus(r: Regs, s: Regs): Regs {
    Regs(Add(r.a, s.a), Add(r.b, s.b), Add(r.c, s.c), Add(r.d, s.d))
  }

  function RfcBlock(r: Regs, block: Block): Regs {
    Plus(r, RfcSteps(r, block, 64))
  }

  lemma FirstBlock(data: seq<Byte>)
    requires |data| % 64 == 0 && data != []
    ensures |data| >= 64 && |data[64..]| % 64 == 0
  {
  }

  function RfcBlocks(r: Regs, data: seq<Byte>): Regs
    requires |data| % 64 == 0
    decreases |data|
  {
    if data == [] then r
    else
      FirstBlock(data);
      RfcBlocks(RfcBlock(r, data[..64]), data[64..])
  }

  // The code takes the steps of the definition.

  /** The new first register as the source's function for round 0, 1, 2 or 3 computes it. */
  function Register(round: nat, a: Word, b: Word, c: Word, d: Word, x: Word, i: Step): Word {
    if round == 0 then FF(a, b, c, d, x, i)
    else if round == 1 then GG(a, b, c, d, x, i)
    else if round == 2 then HH(a, b, c, d, x, i)
    else II(a, b, c, d, x, i)
  }

  lemma TurnRotates(b: Word, temp: Word, i: Step)
    ensures Turn(b, temp, i) == Add(b, Rotate(temp, RotationOf(i)))
  {
    hide Rotate, ShiftBothWays, Amount, Add;
    ShiftsRotate(temp, S(i));
  }

  /** The new first register over the auxiliary function of the definition. */
  lemma RegisterForms(a: Word, b: Word, c: Word, d: Word, x: Word, i: Step)
    ensures Register(i / 16, a, b, c, d, x, i) == Turn(b, Sum(Aux(i, b, c, d), a, x, T(i)), i)
  {
    hide F, G, H, I, Choose, Turn, T, Sum;
    AuxForms(b, c, d);
  }

  lemma RegisterIsStep(r: Regs, x: Word, i: Step)
    ensures RfcStep(r, i, x) == Regs(r.d, Register(i / 16, r.a, r.b, r.c, r.d, x, i), r.b, r.c)
  {
    hide Turn, T, Register, Rotate, RotationOf, Aux, Sum, Add, Constant;
    RegisterForms(r.a, r.b, r.c, r.d, x, i);
    var f := Aux(i, r.b, r.c, r.d);
    SumsCommute(f, r.a, x, T(i));
    TurnRotates(r.b, Sum(f, r.a, x, T(i)), i);
  }

  lemma OtherForms(x: Word, y: Word, z: Word)
    ensures H(x, y, z) == Choose(z, !(x ^ y), x ^ y) && I(x, y, z) == Choose(z, x ^ y, !y)
  {
    ParityForm(x, y, z);
    MixForm(x, y, z);
    hide Choose;
  }

  lemma AuxForms(x: Word, y: Word, z: Word)
    ensures F(x, y, z) == Choose(x, y, z) && G(x, y, z) == Choose(z, x, y)
    ensures H(x, y, z) == Choose(z, !(x ^ y), x ^ y) && I(x, y, z) == Choose(z, x ^ y, !y)
  {
    hide Choose;
    ChoiceForms(x, y, z);
    ChoiceFormsTurned(x, y, z);
    OtherForms(x, y, z);
  }

  /** Four steps with the arguments turned round in place, as the loop bodies write them, bring every register
      back to its own variable. */
  lemma FourSteps(r: Regs, block: Block, i: nat)
    requires i <= 60 && i % 4 == 0
    ensures var s, n := RfcSteps(r, block, i), i / 16;
            var a := Register(n, s.a, s.b, s.c, s.d, WordAt(block, X(i)), i);
            var d := Register(n, s.d, a, s.b, s.c, WordAt(block, X(i + 1)), i + 1);
            var c := Register(n, s.c, d, a, s.b, WordAt(block, X(i + 2)), i + 2);
            var b := Register(n, s.b, c, d, a, WordAt(block, X(i + 3)), i + 3);
            RfcSteps(r, block, i + 4) == Regs(a, b, c, d)
  {
    hide Register, WordAt, RfcStep, K, X, RfcSteps;
    assert (i + 1) / 16 == i / 16 && (i + 2) / 16 == i / 16 && (i + 3) / 16 == i / 16;
    OneStep(r, block, i);
    OneStep(r, block, i + 1);
    OneStep(r, block, i + 2);
    OneStep(r, block, i + 3);
  }

  lemma OneStep(r: Regs, block: Block, i: nat)
    requires i < 64
    ensures var s := RfcSteps(r, block, i);
            RfcSteps(r, block, i + 1)
            == Regs(s.d, Register(i / 16, s.a, s.b, s.c, s.d, WordAt(block, X(i)), i), s.b, s.c)
  {
    hide Register, WordAt, RfcStep, K;
    RegisterIsStep(RfcSteps(r, block, i), WordAt(block, X(i)), i);
  }

  class MD5 {
    var data: seq<Byte>
    const state: array<Word>

    ghost predicate Valid()
      reads this
    {
      state.Length == 4
    }

    ghost function State(): Regs
      requires Valid()
      reads this, state
    {
      Regs(state[0], state[1], state[2], state[3])
    }

    constructor ()
      ensures Valid() && fresh(state) && data == [] && State() == INIT
    {
      data := [];
      state := new Word[4](_ => 0);
      new;
      ResetVector();
    }

    method ResetVector()
      requires Valid()
      modifies this`data, state
      ensures data == [] && State() == INIT
    {
      data := [];
      state[0], state[1], state[2], state[3] := INIT.a, INIT.b, INIT.c, INIT.d;
    }

    /** The first loop of `calculateBlock`. */
    static method Round1(input: Block, r: Regs, ghost start: Regs) returns (a: Word, b: Word, c: Word, d: Word)
      requires r == RfcSteps(start, input, 0)
      ensures Regs(a, b, c, d) == RfcSteps(start, input, 16)
    {
      hide RfcSteps, FF, X, WordAt;
      a, b, c, d := r.a, r.b, r.c, r.d;
      var i := 0;
      while i < 16
        invariant 0 <= i <= 16 && i % 4 == 0
        invariant Regs(a, b, c, d) == RfcSteps(start, input, i)
      {
        FourSteps(start, input, i);
        a := FF(a, b, c, d, WordAt(input, X(i)), i);
        d := FF(d, a, b, c, WordAt(input, X(i + 1)), i + 1);
        c := FF(c, d, a, b, WordAt(input, X(i + 2)), i + 2);
        b := FF(b, c, d, a, WordAt(input, X(i + 3)), i + 3);
        i := i + 4;
      }
    }

    /** The second loop of `calculateBlock`. */
    static method Round2(input: Block, r: Regs, ghost start: Regs) returns (a: Word, b: Word, c: Word, d: Word)
      requires r == RfcSteps(start, input, 16)
      ensures Regs(a, b, c, d) == RfcSteps(start, input, 32)
    {
      hide RfcSteps, GG, X, WordAt;
      a, b, c, d := r.a, r.b, r.c, r.d;
      var i := 16;
      while i < 32
        invariant 16 <= i <= 32 && i % 4 == 0
        invariant Regs(a, b, c, d) == RfcSteps(start, input, i)
      {
        FourSteps(start, input, i);
        a := GG(a, b, c, d, WordAt(input, X(i)), i);
        d := GG(d, a, b, c, WordAt(input, X(i + 1)), i + 1);
        c := GG(c, d, a, b, WordAt(input, X(i + 2)), i + 2);
        b := GG(b, c, d, a, WordAt(input, X(i + 3)), i + 3);
        i := i + 4;
      }
    }

    /** The third loop of `calculateBlock`. */
    static method Round3(input: Block, r: Regs, ghost start: Regs) returns (a: Word, b: Word, c: Word, d: Word)
      requires r == RfcSteps(start, input, 32)
      ensures Regs(a, b, c, d) == RfcSteps(start, input, 48)
    {
      hide RfcSteps, HH, X, WordAt;
      a, b, c, d := r.a, r.b, r.c, r.d;
      var i := 32;
      while i < 48
        invariant 32 <= i <= 48 && i % 4 == 0
        invariant Regs(a, b, c, d) == RfcSteps(start, input, i)
      {
        FourSteps(start, input, i);
        a := HH(a, b, c, d, WordAt(input, X(i)), i);
        d := HH(d, a, b, c, WordAt(input, X(i + 1)), i + 1);
        c := HH(c, d, a, b, WordAt(input, X(i + 2)), i + 2);
        b := HH(b, c, d, a, WordAt(input, X(i + 3)), i + 3);
        i := i + 4;
      }
    }

    /** The fourth loop of `calculateBlock`. */
    static method Round4(input: Block, r: Regs, ghost start: Regs) returns (a: Word, b: Word, c: Word, d: Word)
      requires r == RfcSteps(start, input, 48)
      ensures Regs(a, b, c, d) == RfcSteps(start, input, 64)
    {
      hide RfcSteps, II, X, WordAt;
      a, b, c, d := r.a, r.b, r.c, r.d;
      var i := 48;
      while i < 64
        invariant 48 <= i <= 64 && i % 4 == 0
        invariant Regs(a, b, c, d) == RfcSteps(start, input, i)
      {
        FourSteps(start, input, i);
        a := II(a, b, c, d, WordAt(input, X(i)), i);
        d := II(d, a, b, c, WordAt(input, X(i + 1)), i + 1);
        c := II(c, d, a, b, WordAt(input, X(i + 2)), i + 2);
        b := II(b, c, d, a, WordAt(input, X(i + 3)), i + 3);
        i := i + 4;
      }
    }

    method CalculateBlock(input: Block)
      requires Valid()
      modifies state
      ensures State() == RfcBlock(old(State()), input)
    {
      hide RfcSteps, Add;
      ghost var r := State();
      NoSteps(r, input);
      var a, b, c, d := Round1(input, Regs(state[0], state[1], state[2], state[3]), r);
      a, b, c, d := Round2(input, Regs(a, b, c, d), r);
      a, b, c, d := Round3(input, Regs(a, b, c, d), r);
      a, b, c, d := Round4(input, Regs(a, b, c, d), r);
      state[0], state[1], state[2], state[3] := Add(state[0], a), Add(state[1], b), Add(state[2], c), Add(state[3], d);
    }

    method String2BitStream(src: seq<Byte>)
      modifies this`data
      ensures data == old(data) + src
    {
      for i := 0 to |src|
        invariant data == old(data) + src[..i]
      {
        data := data + [src[i]];
      }
      assert src[..|src|] == src;
    }

    /** Pads `data` to whole blocks; what it adds is said by `Padded`. */
    method Padding()
      modifies this`data
      ensures data == Padded(old(data))
    {
      hide Wrap32, ZeroCount, LowOctets, Rem;
      var fileBitSize := Wrap32(8 * |data|);
      WrapDividesEight(8 * |data|);
      if Rem(fileBitSize, 512) != 448 {
        data := data + [0x80];
        WrapDividesEight(fileBitSize + 8);
        PushZeros(Wrap32(fileBitSize + 8));
        assert data == old(data) + ([0x80] + Zeros(ZeroCount(Wrap32(fileBitSize + 8))));
      } else {
        assert data == old(data) + [];
      }
      PushSize(Size64(fileBitSize));
    }

    /** The loop that pushes zeros, from bit size `size` on. */
    method PushZeros(size: int)
      requires -0x8000_0000 <= size < 0x8000_0000 && size % 8 == 0
      modifies this`data
      ensures data == old(data) + Zeros(ZeroCount(size))
    {
      hide Wrap32, ZeroCount, Rem;
      var newSize := size;
      ZeroCountStep(size);
      while Rem(newSize, 512) != 448
        invariant -0x8000_0000 <= newSize < 0x8000_0000 && newSize % 8 == 0
        invariant ZeroCount(newSize) <= ZeroCount(size)
        invariant data == old(data) + Zeros(ZeroCount(size) - ZeroCount(newSize))
        decreases ZeroCount(newSize)
      {
        ZeroCountStep(newSize);
        data := data + [0];
        newSize := Wrap32(newSize + 8);
      }
      ZeroCountStep(newSize);
    }

    /** The loop that pushes the eight octets of the size. */
    method PushSize(size: nat)
      modifies this`data
      ensures data == old(data) + LowOctets(size, 8)
    {
      var temp: nat := size;
      for i := 0 to 8
        invariant data + LowOctets(temp, 8 - i) == old(data) + LowOctets(size, 8)
      {
        ghost var rest := LowOctets(temp / 0x100, 7 - i);
        assert data + ([temp % 0x100] + rest) == data + [temp % 0x100] + rest;
        data := data + [temp % 0x100];
        temp := temp / 0x100;
      }
      assert data + [] == data;
    }

    method Compute()
      requires Valid() && |data| % 64 == 0
      modifies state
      ensures State() == RfcBlocks(old(State()), data)
    {
      hide RfcBlock;
      ghost var goal := RfcBlocks(State(), data);
      var i := 0;
      assert data[0..] == data;
      while i < |data|
        invariant 0 <= i <= |data| && i % 64 == 0
        invariant RfcBlocks(State(), data[i..]) == goal
      {
        assert data[i..][..64] == data[i..i + 64] && data[i..][64..] == data[i + 64..];
        CalculateBlock(data[i..i + 64]);
        i := i + 64;
      }
    }

    method GenDigest() returns (result: seq<Byte>)
      requires Valid()
      ensures result == Shortened(State())
    {
      hide Pushed;
      result := [];
      for i := 0 to 4
        invariant result == (if i > 0 then Pushed(state[0]) else []) + (if i > 1 then Pushed(state[1]) else [])
                            + (if i > 2 then Pushed(state[2]) else []) + (if i > 3 then Pushed(state[3]) else [])
      {
        var word := PushWord(state[i]);
        result := result + word;
      }
    }

    method PushWord(word: Word) returns (pushed: seq<Byte>)
      ensures pushed == Pushed(word)
    {
      var n := word;
      pushed := [];
      assert [] + Pushed(word) == Pushed(word);
      while n != 0
        invariant pushed + Pushed(n) == Pushed(word)
        decreases n
      {
        assert pushed + ([Low(n)] + Pushed(High(n))) == pushed + [Low(n)] + Pushed(High(n));
        pushed := pushed + [Low(n)];
        n := High(n);
      }
      assert pushed + [] == pushed;
    }

    method Digest(src: seq<Byte>) returns (result: seq<Byte>)
      requires Valid()
      modifies this`data, state
      ensures |Padded(src)| % 64 == 0 && result == Shortened(RfcBlocks(INIT, Padded(src)))
    {
      ResetVector();
      String2BitStream(src);
      assert [] + src == src;
      Padding();
      PaddedInBlocks(src);
      Compute();
      result := GenDigest();
    }
  }

  lemma NoSteps(r: Regs, block: Block)
    ensures RfcSteps(r, block, 0) == r
  {
  }

  /** The words one after the other, each without its high zero octets. */
  function Shortened(r: Regs): seq<Byte> {
    Pushed(r.a) + Pushed(r.b) + Pushed(r.c) + Pushed(r.d)
  }

  /** Section 3.5 of RFC 1321: sixteen octets, low-order octet of A first. */
  function RfcOutput(r: Regs): (s: seq<Byte>)
    ensures |s| == 16
  {
    Octets(r.a) + Octets(r.b) + Octets(r.c) + Octets(r.d)
  }

  /** The digest bytes are those of the definition exactly when all four words have a non-zero high octet. */
  lemma OutputIff(r: Regs)
    ensures Shortened(r) == RfcOutput(r)
            <==> r.a >= 0x100_0000 && r.b >= 0x100_0000 && r.c >= 0x100_0000 && r.d >= 0x100_0000
  {
    hide Octets, Pushed, Significant;
    PushedOctets(r.a);
    PushedOctets(r.b);
    PushedOctets(r.c);
    PushedOctets(r.d);
    AllSignificant(r.a);
    AllSignificant(r.b);
    AllSignificant(r.c);
    AllSignificant(r.d);
  }

  /** The digest of RFC 1321. */
  function RfcDigest(m: seq<Byte>): seq<Byte>
    requires |RfcPadded(m)| % 64 == 0
  {
    RfcOutput(RfcBlocks(INIT, RfcPadded(m)))
  }

  /** For messages whose padding is right, what `Digest` returns is the digest of the RFC exactly when none of the
      four final words is below 2^24. */
  lemma DigestIff(m: seq<Byte>)
    requires |m| % 64 != 56 && |m| < 0x1000_0000 - 7
    ensures |Padded(m)| % 64 == 0 && |RfcPadded(m)| % 64 == 0
    ensures var r := RfcBlocks(INIT, Padded(m));
            Shortened(r) == RfcDigest(m)
            <==> r.a >= 0x100_0000 && r.b >= 0x100_0000 && r.c >= 0x100_0000 && r.d >= 0x100_0000
  {
    hide Padded, RfcPadded, RfcBlocks, Shortened, RfcOutput;
    PaddedInBlocks(m);
    PaddingIff(m);
    OutputIff(RfcBlocks(INIT, Padded(m)));
  }
}
