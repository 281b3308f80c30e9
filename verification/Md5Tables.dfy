/** The tables of netrpc/common/enc/md5.cpp, and the formulas of RFC 1321 for the indices and rotations. */
module Md5Tables {

  const S_TABLE: seq<seq<nat>> := [
    [7, 12, 17, 22, 7, 12, 17, 22, 7, 12, 17, 22, 7, 12, 17, 22],
    [5, 9, 14, 20, 5, 9, 14, 20, 5, 9, 14, 20, 5, 9, 14, 20],
    [4, 11, 16, 23, 4, 11, 16, 23, 4, 11, 16, 23, 4, 11, 16, 23],
    [6, 10, 15, 21, 6, 10, 15, 21, 6, 10, 15, 21, 6, 10, 15, 21]
  ]

  const X_TABLE: seq<seq<nat>> := [
    [0, 1, 2, 3, 4, 5, 6, 7, 8, 9, 10, 11, 12, 13, 14, 15],
    [1, 6, 11, 0, 5, 10, 15, 4, 9, 14, 3, 8, 13, 2, 7, 12],
    [5, 8, 11, 14, 1, 4, 7, 10, 13, 0, 3, 6, 9, 12, 15, 2],
    [0, 7, 14, 5, 12, 3, 10, 1, 8, 15, 6, 13, 4, 11, 2, 9]
  ]

  const T_ROW0: seq<nat> := [
    0xD76AA478, 0xE8C7B756, 0x242070DB, 0xC1BDCEEE, 0xF57C0FAF, 0x4787C62A, 0xA8304613, 0xFD469501,
    0x698098D8, 0x8B44F7AF, 0xFFFF5BB1, 0x895CD7BE, 0x6B901122, 0xFD987193, 0xA679438E, 0x49B40821
  ]

  const T_ROW1: seq<nat> := [
    0xF61E2562, 0xC040B340, 0x265E5A51, 0xE9B6C7AA, 0xD62F105D, 0x02441453, 0xD8A1E681, 0xE7D3FBC8,
    0x21E1CDE6, 0xC33707D6, 0xF4D50D87, 0x455A14ED, 0xA9E3E905, 0xFCEFA3F8, 0x676F02D9, 0x8D2A4C8A
  ]

  const T_ROW2: seq<nat> := [
    0xFFFA3942, 0x8771F681, 0x6D9D6122, 0xFDE5380C, 0xA4BEEA44, 0x4BDECFA9, 0xF6BB4B60, 0xBEBFBC70,
    0x289B7EC6, 0xEAA127FA, 0xD4EF3085, 0x04881D05, 0xD9D4D039, 0xE6DB99E5, 0x1FA27CF8, 0xC4AC5665
  ]

  const T_ROW3: seq<nat> := [
    0xF4292244, 0x432AFF97, 0xAB9423A7, 0xFC93A039, 0x655B59C3, 0x8F0CCC92, 0xFFEFF47D, 0x85845DD1,
    0x6FA87E4F, 0xFE2CE6E0, 0xA3014314, 0x4E0811A1, 0xF7537E82, 0xBD3AF235, 0x2AD7D2BB, 0xEB86D391
  ]

  const T_TABLE := [T_ROW0, T_ROW1, T_ROW2, T_ROW3]

  type Step = i: int | 0 <= i < 64

  /** The additive constant of step `t`. */
  function Constant(t: Step): (n: nat)
    ensures n < 0x1_0000_0000
  {
    T_TABLE[t / 16][t % 16]
  }

  /** Which word of the block step `t` takes. */
  function K(t: Step): nat {
    if t < 16 then t
    else if t < 32 then (5 * t + 1) % 16
    else if t < 48 then (3 * t + 5) % 16
    else 7 * t % 16
  }

  /** How far step `t` rotates. */
  function Amount(t: Step): nat {
    var round := [[7, 12, 17, 22], [5, 9, 14, 20], [4, 11, 16, 23], [6, 10, 15, 21]][t / 16];
    round[t % 4]
  }

  lemma Row0(r: nat)
    requires r < 16
    ensures X_TABLE[0][r] == r
  {
  }

  lemma Row1(r: nat)
    requires r < 16
    ensures X_TABLE[1][r] == (5 * r + 1) % 16
  {
  }

  lemma Row2(r: nat)
    requires r < 16
    ensures X_TABLE[2][r] == (3 * r + 5) % 16
  {
  }

  lemma Row3(r: nat)
    requires r < 16
    ensures X_TABLE[3][r] == 7 * r % 16
  {
  }

  lemma AddSixteens(x: nat, k: nat)
    ensures (x + 16 * k) % 16 == x % 16
  {
  }

  /** The index table holds the indices of section 3.4. */
  lemma XIsK(i: Step)
    ensures X_TABLE[i / 16][i % 16] == K(i) < 16
  {
    hide X_TABLE;
    var r := i % 16;
    if i < 16 {
      Row0(r);
    } else if i < 32 {
      Row1(r);
      AddSixteens(5 * r + 1, 5);
    } else if i < 48 {
      Row2(r);
      AddSixteens(3 * r + 5, 6);
    } else {
      Row3(r);
      AddSixteens(7 * r, 21);
    }
  }

  lemma Turns0(r: nat)
    requires r < 16
    ensures S_TABLE[0][r] == [7, 12, 17, 22][r % 4]
  {
  }

  lemma Turns1(r: nat)
    requires r < 16
    ensures S_TABLE[1][r] == [5, 9, 14, 20][r % 4]
  {
  }

  lemma Turns2(r: nat)
    requires r < 16
    ensures S_TABLE[2][r] == [4, 11, 16, 23][r % 4]
  {
  }

  lemma Turns3(r: nat)
    requires r < 16
    ensures S_TABLE[3][r] == [6, 10, 15, 21][r % 4]
  {
  }

  /** The rotation table holds the amounts of section 3.4. */
  lemma SIsAmount(i: Step)
    ensures S_TABLE[i / 16][i % 16] == Amount(i)
    ensures Amount(i) in {7, 12, 17, 22} || Amount(i) in {5, 9, 14, 20}
            || Amount(i) in {4, 11, 16, 23} || Amount(i) in {6, 10, 15, 21}
  {
    hide S_TABLE;
    var r := i % 16;
    assert i % 4 == r % 4;
    if i < 16 {
      Turns0(r);
    } else if i < 32 {
      Turns1(r);
    } else if i < 48 {
      Turns2(r);
    } else {
      Turns3(r);
    }
  }
}
