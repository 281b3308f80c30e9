/** Numbers as streams print them, and the smaller and the larger of two. */
module Numerals {
  function Min(a: int, b: int): int {
    if a <= b then a else b
  }

  function Max(a: int, b: int): int {
    if a >= b then a else b
  }

  predicate IsDigit(c: char) {
    '0' <= c <= '9'
  }

  predicate AllDigits(s: string) {
    forall i :: 0 <= i < |s| ==> IsDigit(s[i])
  }

  function DigitValue(c: char): int {
    c as int - '0' as int
  }

  /** The number a digit string denotes. */
  function Number(s: string): int {
    if s == "" then 0 else Number(s[..|s| - 1]) * 10 + DigitValue(s[|s| - 1])
  }

  function Digit(d: nat): char
    requires d < 10
  {
    '0' + d as char
  }

  function Decimal(n: nat): (s: string)
    ensures s != "" && AllDigits(s)
  {
    if n < 10 then [Digit(n)] else Decimal(n / 10) + [Digit(n % 10)]
  }

  lemma {:induction false} DecimalNumber(n: nat)
    ensures Number(Decimal(n)) == n
  {
    if n >= 10 {
      DecimalNumber(n / 10);
      assert Decimal(n)[..|Decimal(n)| - 1] == Decimal(n / 10);
    }
  }

  /** No digit too many in front. */
  predicate Shortest(s: string) {
    s != "" && (s[0] == '0' ==> s == "0")
  }

  lemma {:induction false} DecimalShortest(n: nat)
    ensures Shortest(Decimal(n)) && (n > 0 ==> Decimal(n)[0] != '0')
  {
    if n >= 10 {
      DecimalShortest(n / 10);
      assert Decimal(n)[0] == Decimal(n / 10)[0];
    }
  }

  /** A number as a stream prints it. */
  function Signed(n: int): (s: string)
    ensures s != "" && (s[0] == '-' <==> n < 0) && forall k :: 1 <= k < |s| ==> s[k] != '-'
  {
    if n < 0 then "-" + Decimal(-n) else Decimal(n)
  }

  lemma SignedInjective(m: int, n: int)
    requires Signed(m) == Signed(n)
    ensures m == n
  {
    hide Decimal, Number;
    assert Signed(m)[1..] == Signed(n)[1..];
    if m < 0 {
      assert Decimal(-m) == Signed(m)[1..] && Decimal(-n) == Signed(n)[1..];
      DecimalNumber(-m);
      DecimalNumber(-n);
    } else {
      DecimalNumber(m);
      DecimalNumber(n);
    }
  }
}
