/** The padding of netrpc/common/enc/md5.cpp, with its `int` arithmetic, and that of RFC 1321. */
module Md5Padding {
  import opened Bytes

  /** An integer as the 32-bit `int` with the same low bits. */
  function Wrap32(n: int): (w: int)
    ensures -0x8000_0000 <= w < 0x8000_0000 && (w - n) % 0x1_0000_0000 == 0
  {
    (n + 0x8000_0000) % 0x1_0000_0000 - 0x8000_0000
  }

  /** The remainder operator of C++, with the sign of the dividend. */
  function Rem(n: int, m: nat): int
    requires m > 0
  {
    if n >= 0 then n % m else -(-n % m)
  }

  /** An `int` converted to `uint64_t`. */
  function Size64(n: int): nat
    requires -0x8000_0000 <= n < 0x8000_0000
  {
    if n < 0 then n + 0x1_0000_0000_0000_0000 else n
  }

  /** The `k` low octets of `u`, lowest first. */
  function LowOctets(u: nat, k: nat): (s: seq<Byte>)
    ensures |s| == k
  {
    if k == 0 then [] else [u % 0x100] + LowOctets(u / 0x100, k - 1)
  }

  /** How many zeros the loop pushes from bit size `n` on: up to the next 448 modulo 512; a size just below the
      greatest `int` wraps to the smallest, and below zero only 448 itself stops the loop. */
  function ZeroCount(n: int): nat
    requires -0x8000_0000 <= n < 0x8000_0000
  {
    if n < 0 then (448 - n) / 8
    else if n <= 0x7FFF_FFC0 then (448 - n) % 512 / 8
    else (0x8000_0000 - n) / 8 + (448 + 0x8000_0000) / 8
  }

  lemma ZeroCountStep(n: int)
    requires -0x8000_0000 <= n < 0x8000_0000 && n % 8 == 0
    ensures Rem(n, 512) == 448 ==> ZeroCount(n) == 0
    ensures Rem(n, 512) != 448 ==> var m := Wrap32(n + 8); m % 8 == 0 && ZeroCount(n) == ZeroCount(m) + 1
  {
    if n < 0 {
      StepBelowZero(n);
    } else if n < 0x7FFF_FFC0 {
      StepInRange(n);
    } else {
      StepNearTop(n);
    }
  }

  lemma StepBelowZero(n: int)
    requires -0x8000_0000 <= n < 0 && n % 8 == 0
    ensures Rem(n, 512) != 448 && Wrap32(n + 8) == n + 8 && ZeroCount(n) == ZeroCount(n + 8) + 1
  {
    hide Wrap32;
    WrapInside(n + 8);
    if n + 8 == 0 {
      assert n == -8;
    }
  }

  lemma StepInRange(n: int)
    requires 0 <= n < 0x7FFF_FFC0 && n % 8 == 0
    ensures Rem(n, 512) == 448 ==> ZeroCount(n) == 0
    ensures Wrap32(n + 8) == n + 8 && (Rem(n, 512) != 448 ==> ZeroCount(n) == ZeroCount(n + 8) + 1)
  {
    hide Wrap32;
    WrapInside(n + 8);
    NextStop(n);
    assert n + 8 <= 0x7FFF_FFC0;
  }

  lemma StepNearTop(n: int)
    requires 0x7FFF_FFC0 <= n < 0x8000_0000 && n % 8 == 0
    ensures Rem(n, 512) == 448 ==> ZeroCount(n) == 0
    ensures Rem(n, 512) != 448 ==> Wrap32(n + 8) % 8 == 0 && ZeroCount(n) == ZeroCount(Wrap32(n + 8)) + 1
  {
    assert n == 0x7FFF_FFC0 || n == 0x7FFF_FFC8 || n == 0x7FFF_FFD0 || n == 0x7FFF_FFD8
        || n == 0x7FFF_FFE0 || n == 0x7FFF_FFE8 || n == 0x7FFF_FFF0 || n == 0x7FFF_FFF8;
  }

  lemma WrapInside(n: int)
    requires -0x8000_0000 <= n < 0x8000_0000
    ensures Wrap32(n) == n
  {
  }

  lemma NextStop(n: int)
    requires 0 <= n && n % 8 == 0
    ensures n % 512 == 448 ==> (448 - n) % 512 / 8 == 0
    ensures n % 512 != 448 ==> (448 - n) % 512 / 8 == (448 - (n + 8)) % 512 / 8 + 1
  {
    NextStopOf(n, n / 8 / 64, n / 8 % 64);
  }

  lemma NextStopOf(n: int, q: int, r: nat)
    requires n == 512 * q + 8 * r && r < 64
    ensures n % 512 == 448 ==> (448 - n) % 512 / 8 == 0
    ensures n % 512 != 448 ==> (448 - n) % 512 / 8 == (448 - (n + 8)) % 512 / 8 + 1
  {
    ResidueIs(n, q, 8 * r);
    if r <= 56 {
      StopAfter(n, -q, 56 - r);
      if r < 56 {
        StopAfter(n + 8, -q, 55 - r);
      }
    } else {
      StopAfter(n, -q - 1, 120 - r);
      StopAfter(n + 8, -q - 1, 119 - r);
    }
  }

  lemma StopAfter(n: int, q: int, k: nat)
    requires 448 - n == 512 * q + 8 * k && k < 64
    ensures (448 - n) % 512 / 8 == k
  {
    ResidueIs(448 - n, q, 8 * k);
  }

  lemma ResidueIs(x: int, q: int, r: nat)
    requires x == 512 * q + r && r < 512
    ensures x % 512 == r
  {
  }

  lemma WrapDividesEight(n: int)
    requires n % 8 == 0
    ensures Wrap32(n) % 8 == 0
  {
    assert Wrap32(n) == n - (n + 0x8000_0000) / 0x1_0000_0000 * 0x1_0000_0000;
  }

  /** What `padding` makes of a message. */
  function Padded(m: seq<Byte>): seq<Byte> {
    var bits := Wrap32(8 * |m|);
    m + (if Rem(bits, 512) == 448 then [] else [0x80] + Zeros(ZeroCount(Wrap32(bits + 8)))) + LowOctets(Size64(bits), 8)
  }

  lemma WrapKeepsResidue(n: int)
    ensures Wrap32(n) % 512 == n % 512
  {
    var k := (n + 0x8000_0000) / 0x1_0000_0000;
    assert Wrap32(n) == n - k * 0x1_0000_0000;
    SameResidue(n, Wrap32(n), -k * 0x80_0000);
  }

  lemma SameResidue(a: int, b: int, k: int)
    requires b == a + 512 * k
    ensures a % 512 == b % 512
  {
  }

  /** The zeros take the bit size to 448 modulo 512. */
  lemma ZerosLand(n: int)
    requires -0x8000_0000 <= n < 0x8000_0000 && n % 8 == 0
    ensures (n + 8 * ZeroCount(n)) % 512 == 448
  {
    if 0 <= n <= 0x7FFF_FFC0 {
      LandsOn(n, (56 - n / 8) / 64, (56 - n / 8) % 64);
    } else {
      EighthsAddUp(n, if n < 0 then 448 - n else 0x8000_0000 - n);
    }
  }

  lemma EighthsAddUp(n: int, gap: int)
    requires n % 8 == 0 && (n + gap) % 8 == 0
    ensures 8 * (gap / 8) == gap
  {
  }

  lemma LandsOn(n: int, q: int, k: nat)
    requires 448 - n == 512 * q + 8 * k && k < 64
    ensures (n + 8 * ((448 - n) % 512 / 8)) % 512 == 448
  {
    StopAfter(n, q, k);
    ResidueIs(n + 8 * k, -q, 448);
  }

  /** Every padded message is a whole number of 64-byte blocks, whatever its length. */
  lemma PaddedInBlocks(m: seq<Byte>)
    ensures |Padded(m)| % 64 == 0
  {
    hide ZeroCount, Wrap32, LowOctets, Zeros;
    var bits := Wrap32(8 * |m|);
    WrapKeepsResidue(8 * |m|);
    if Rem(bits, 512) == 448 {
      EighthOfResidue(|m|, 448);
      WholeBlocks(|m|);
    } else {
      var next := Wrap32(bits + 8);
      WrapKeepsResidue(bits + 8);
      DividesEight(bits, next, |m|);
      ZerosLand(next);
      var z := ZeroCount(next);
      ResiduesAdd(next, 8 * |m| + 8, 8 * z);
      EighthOfResidue(|m| + 1 + z, 448);
      WholeBlocks(|m| + 1 + z);
    }
  }

  lemma WholeBlocks(n: nat)
    requires n % 64 == 56
    ensures (n + 8) % 64 == 0
  {
  }

  lemma DividesEight(bits: int, next: int, n: nat)
    requires bits % 512 == 8 * n % 512 && next % 512 == (bits + 8) % 512
    ensures next % 8 == 0 && next % 512 == (8 * n + 8) % 512
  {
    ResiduesAdd(bits, 8 * n, 8);
    var p, q := next / 512, (8 * n + 8) / 512;
    assert next - 512 * p == 8 * n + 8 - 512 * q;
    EightTimes(next, 64 * p + n + 1 - 64 * q);
  }

  lemma EightTimes(n: int, k: int)
    requires n == 8 * k
    ensures n % 8 == 0
  {
  }

  lemma ResiduesAdd(a: int, b: int, c: int)
    requires a % 512 == b % 512
    ensures (a + c) % 512 == (b + c) % 512
  {
    SameResidue(a + c, b + c, b / 512 - a / 512);
  }

  lemma EighthOfResidue(n: nat, r: nat)
    requires 8 * n % 512 == r
    ensures 8 * (n % 64) == r
  {
  }

  // Against sections 3.1 and 3.2 of RFC 1321.

  /** A one bit, the fewest zeros that lead to 448 modulo 512 bits, and the low 64 bits of the bit length. */
  function RfcPadded(m: seq<Byte>): seq<Byte> {
    m + ([0x80] + Zeros((55 - |m|) % 64)) + LowOctets(8 * |m| % 0x1_0000_0000_0000_0000, 8)
  }

  /** The zeros of the RFC end at 56 modulo 64 octets, and no fewer would. */
  lemma RfcPaddingIsLeast(n: nat, j: nat)
    ensures var k := (55 - n) % 64; (n + 1 + k) % 64 == 56 && (j < k ==> (n + 1 + j) % 64 != 56)
  {
    var k := (55 - n) % 64;
    if j < k {
      assert (55 - n - j) % 64 == k - j;
    }
  }

  function Power(k: nat): nat {
    if k == 0 then 1 else 0x100 * Power(k - 1)
  }

  lemma {:induction false} LowOctetsInjective(u: nat, v: nat, k: nat)
    requires u < Power(k) && v < Power(k) && LowOctets(u, k) == LowOctets(v, k)
    ensures u == v
    decreases k
  {
    if k > 0 {
      var s, t := LowOctets(u, k), LowOctets(v, k);
      assert s[0] == t[0] && s[1..] == LowOctets(u / 0x100, k - 1) && t[1..] == LowOctets(v / 0x100, k - 1);
      LowOctetsInjective(u / 0x100, v / 0x100, k - 1);
    }
  }

  /** Eight octets tell 64-bit numbers apart. */
  lemma EightOctets(u: nat, v: nat)
    requires u < 0x1_0000_0000_0000_0000 && v < 0x1_0000_0000_0000_0000
    requires LowOctets(u, 8) == LowOctets(v, 8)
    ensures u == v
  {
    assert Power(8) == 0x1_0000_0000_0000_0000 by {
      assert Power(4) == 0x1_0000_0000;
    }
    LowOctetsInjective(u, v, 8);
  }

  /** The size field: the last eight octets. */
  lemma SizeField(m: seq<Byte>)
    ensures var p := Padded(m); |p| >= |m| + 8 && p[..|m|] == m && p[|p| - 8..] == LowOctets(Size64(Wrap32(8 * |m|)), 8)
  {
    hide ZeroCount, Wrap32, LowOctets, Rem;
  }

  lemma RfcSizeField(m: seq<Byte>)
    ensures var p := RfcPadded(m); |p| >= 8 && p[|p| - 8..] == LowOctets(8 * |m| % 0x1_0000_0000_0000_0000, 8)
    ensures |RfcPadded(m)| == |m| + 9 + (55 - |m|) % 64
  {
    hide LowOctets;
  }

  /** Below 2^28 octets the size field is the bit length itself. */
  lemma SizeFieldExact(n: nat)
    requires n < 0x1000_0000
    ensures Size64(Wrap32(8 * n)) == 8 * n
  {
  }

  /** No two messages under 2^28 octets are padded alike. */
  lemma PaddingInjective(m1: seq<Byte>, m2: seq<Byte>)
    requires |m1| < 0x1000_0000 && |m2| < 0x1000_0000 && Padded(m1) == Padded(m2)
    ensures m1 == m2
  {
    hide Padded, LowOctets, Wrap32, Size64;
    SizeField(m1);
    SizeField(m2);
    SizeFieldExact(|m1|);
    SizeFieldExact(|m2|);
    EightOctets(8 * |m1|, 8 * |m2|);
  }

  /** The padding is that of the RFC exactly for lengths other than 56 modulo 64 that stay nine octets below 2^28. */
  lemma PaddingIff(m: seq<Byte>)
    requires |m| < 0x1000_0000_0000_0000
    ensures Padded(m) == RfcPadded(m) <==> |m| % 64 != 56 && |m| < 0x1000_0000 - 7
  {
    hide LowOctets, Padded, RfcPadded, Wrap32, ZeroCount;
    if |m| >= 0x1000_0000 {
      LargeSizesDiffer(m);
    } else if |m| >= 0x1000_0000 - 7 {
      TopSizesDiffer(m);
    } else if |m| % 64 == 56 {
      SkippedPaddingDiffers(m);
    } else {
      UsualPadding(m);
    }
  }

  lemma LargeSizesDiffer(m: seq<Byte>)
    requires 0x1000_0000 <= |m| < 0x1000_0000_0000_0000
    ensures Padded(m) != RfcPadded(m)
  {
    hide LowOctets, Padded, RfcPadded;
    SizeField(m);
    RfcSizeField(m);
    var u := Size64(Wrap32(8 * |m|));
    if LowOctets(u, 8) == LowOctets(8 * |m|, 8) {
      EightOctets(u, 8 * |m|);
    }
  }

  lemma TopSizesDiffer(m: seq<Byte>)
    requires 0x1000_0000 - 7 <= |m| < 0x1000_0000
    ensures Padded(m) != RfcPadded(m)
  {
    hide LowOctets;
    var bits := 8 * |m|;
    assert Wrap32(bits) == bits && bits % 512 == 8 * (|m| % 64) && |m| % 64 >= 57;
    assert ZeroCount(Wrap32(bits + 8)) >= 64 by {
      hide Wrap32;
      TopWrap(bits + 8);
    }
    RfcSizeField(m);
  }

  lemma TopWrap(n: int)
    requires 0x7FFF_FFC0 < n <= 0x8000_0000
    ensures Wrap32(n) == n || (n == 0x8000_0000 && Wrap32(n) == -0x8000_0000)
  {
  }

  lemma SkippedPaddingDiffers(m: seq<Byte>)
    requires |m| < 0x1000_0000 && |m| % 64 == 56
    ensures Padded(m) != RfcPadded(m)
  {
    hide LowOctets, ZeroCount, Wrap32;
    WrapInside(8 * |m|);
    assert 8 * |m| % 512 == 448;
    RfcSizeField(m);
  }

  lemma UsualPadding(m: seq<Byte>)
    requires |m| < 0x1000_0000 - 7 && |m| % 64 != 56
    ensures Padded(m) == RfcPadded(m)
  {
    hide LowOctets, Wrap32;
    var n := |m|;
    WrapInside(8 * n);
    NotSkipped(n);
    WrapInside(8 * n + 8);
    UsualCount(n);
  }

  lemma NotSkipped(n: nat)
    requires n < 0x1000_0000 - 7 && n % 64 != 56
    ensures 8 * n % 512 != 448 && 8 * n + 8 <= 0x7FFF_FFC0
  {
    if 8 * n % 512 == 448 {
      EighthOfResidue(n, 448);
    }
    assert 0xFFF_FFF8 % 64 == 56;
  }

  lemma UsualCount(n: nat)
    ensures (448 - (8 * n + 8)) % 512 / 8 == (55 - n) % 64
  {
    var k := (55 - n) % 64;
    assert 448 - (8 * n + 8) == 8 * (55 - n) == 8 * k + 512 * ((55 - n) / 64);
    SameResidue(8 * k, 8 * (55 - n), (55 - n) / 64);
  }
}
