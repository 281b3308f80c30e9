/** Bytes, 32-bit integers in network order, and facts about where a piece of a byte string sits. */
module Bytes {
  type Byte = b: int | 0 <= b < 0x100
  type Int32 = n: int | -0x8000_0000 <= n < 0x8000_0000

  const INT_MAX: int := 0x7fff_ffff

  function Zeros(n: nat): (z: seq<Byte>)
    ensures |z| == n
  {
    seq(n, _ => 0)
  }

  /** The `k` low base-256 digits of `u`, most significant first. */
  function Digits(u: nat, k: nat): (s: seq<Byte>)
    ensures |s| == k
  {
    if k == 0 then [] else Digits(u / 0x100, k - 1) + [u % 0x100]
  }

  /** The number that base-256 digits denote; at most four of them. */
  function Value(s: seq<Byte>): (u: nat)
    ensures |s| == 4 ==> u < 0x1_0000_0000
    ensures |s| == 3 ==> u < 0x100_0000
    ensures |s| == 2 ==> u < 0x1_0000
    ensures |s| == 1 ==> u < 0x100
  {
    if s == [] then 0 else Value(s[..|s| - 1]) * 0x100 + s[|s| - 1] as int
  }

  lemma {:induction false} DigitsValue(u: nat, k: nat)
    requires k <= 4
    requires (k == 0 ==> u == 0) && (k == 1 ==> u < 0x100) && (k == 2 ==> u < 0x1_0000)
    requires (k == 3 ==> u < 0x100_0000) && (k == 4 ==> u < 0x1_0000_0000)
    ensures Value(Digits(u, k)) == u
  {
    if k > 0 {
      DigitsValue(u / 0x100, k - 1);
      var s := Digits(u, k);
      assert s[..k - 1] == Digits(u / 0x100, k - 1) && s[k - 1] == u % 0x100;
    }
  }

  /** The four bytes `htonl` lays out, most significant first, of a two's complement number. */
  function NetBytes(n: Int32): (s: seq<Byte>)
    ensures |s| == 4
  {
    Digits(if n < 0 then n + 0x1_0000_0000 else n, 4)
  }

  /** `getInt32FromNetByte`: four bytes read back as a two's complement number. */
  function GetInt32(s: seq<Byte>, i: nat): Int32
    requires i + 4 <= |s|
  {
    var u := Value(s[i..i + 4]);
    if u >= 0x8000_0000 then u - 0x1_0000_0000 else u
  }

  /** `part` sits in `s` at position `i`. */
  predicate At<T(==)>(s: seq<T>, i: nat, part: seq<T>) {
    i + |part| <= |s| && s[i..i + |part|] == part
  }

  lemma AtSplit<T>(s: seq<T>, i: nat, a: seq<T>, b: seq<T>)
    requires At(s, i, a + b)
    ensures At(s, i, a) && At(s, i + |a|, b)
  {
    assert s[i..i + |a|] == (s[i..i + |a + b|])[..|a|];
    assert s[i + |a|..i + |a| + |b|] == (s[i..i + |a + b|])[|a|..];
  }

  lemma NetRoundTrip(n: Int32, s: seq<Byte>, i: nat)
    requires At(s, i, NetBytes(n))
    ensures GetInt32(s, i) == n
  {
    DigitsValue(if n < 0 then n + 0x1_0000_0000 else n, 4);
  }
}
