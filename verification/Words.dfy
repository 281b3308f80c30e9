/** A byte as eight bits and back. */
module ByteBits {
  lemma ByteIsBits(b: int)
    requires 0 <= b < 0x100
    ensures (b as bv8) as int == b
  {
  }
}

/** Facts about 32-bit words that the MD5 proofs use; kept apart so that they are decided bit by bit. */
module Words {
  import opened Bytes
  import opened ByteBits

  type Word = bv32

  lemma ChoiceForms(x: Word, y: Word, z: Word)
    ensures (x & y) | (!x & z) == Choose(x, y, z)
  {
  }

  lemma ChoiceFormsTurned(x: Word, y: Word, z: Word)
    ensures (x & z) | (y & !z) == Choose(z, x, y)
  {
  }

  /** `p` where `x` is one, `q` where it is zero. */
  function Choose(x: Word, p: Word, q: Word): Word {
    q ^ (x & (p ^ q))
  }

  lemma ParityForm(x: Word, y: Word, z: Word)
    ensures x ^ y ^ z == Choose(z, !(x ^ y), x ^ y)
  {
  }

  lemma MixForm(x: Word, y: Word, z: Word)
    ensures y ^ (x | !z) == Choose(z, x ^ y, !y)
  {
  }

  function Add(a: Word, b: Word): Word {
    a + b
  }

  function Sum(a: Word, b: Word, c: Word, d: Word): Word {
    a + b + c + d
  }

  /** Both are sums modulo 2^32, in any order. */
  lemma SumsWrap(a: Word, b: Word, c: Word, d: Word)
    ensures Add(a, b) == b + a && Sum(a, b, c, d) == d + c + b + a
  {
  }

  lemma SumsCommute(a: Word, b: Word, c: Word, d: Word)
    ensures Sum(a, b, c, d) == Sum(b, a, c, d)
  {
  }

  /** The rotation as the code writes it. */
  function ShiftBothWays(w: Word, s: nat): Word
    requires 0 < s < 32
  {
    (w << s) | (w >> (32 - s))
  }

  /** The rotation of RFC 1321. */
  function Rotate(w: Word, s: nat): Word
    requires s < 32
  {
    w.RotateLeft(s)
  }

  /** Shifting both ways is rotating, for the amounts of MD5. */
  lemma ShiftsRotate(w: Word, s: nat)
    requires s in {7, 12, 17, 22} || s in {5, 9, 14, 20} || s in {4, 11, 16, 23} || s in {6, 10, 15, 21}
    ensures ShiftBothWays(w, s) == Rotate(w, s)
  {
    if s in {7, 12, 17, 22} {
      RotateByRound1(w, s);
    } else if s in {5, 9, 14, 20} {
      RotateByRound2(w, s);
    } else if s in {4, 11, 16, 23} {
      RotateByRound3(w, s);
    } else {
      RotateByRound4(w, s);
    }
  }

  lemma RotateByRound1(w: Word, s: nat)
    requires s in {7, 12, 17, 22}
    ensures (w << s) | (w >> (32 - s)) == w.RotateLeft(s)
  {
    if
    case s == 7 => assert (w << 7) | (w >> 25) == w.RotateLeft(7);
    case s == 12 => assert (w << 12) | (w >> 20) == w.RotateLeft(12);
    case s == 17 => assert (w << 17) | (w >> 15) == w.RotateLeft(17);
    case s == 22 => assert (w << 22) | (w >> 10) == w.RotateLeft(22);
  }

  lemma RotateByRound2(w: Word, s: nat)
    requires s in {5, 9, 14, 20}
    ensures (w << s) | (w >> (32 - s)) == w.RotateLeft(s)
  {
    if
    case s == 5 => assert (w << 5) | (w >> 27) == w.RotateLeft(5);
    case s == 9 => assert (w << 9) | (w >> 23) == w.RotateLeft(9);
    case s == 14 => assert (w << 14) | (w >> 18) == w.RotateLeft(14);
    case s == 20 => assert (w << 20) | (w >> 12) == w.RotateLeft(20);
  }

  lemma RotateByRound3(w: Word, s: nat)
    requires s in {4, 11, 16, 23}
    ensures (w << s) | (w >> (32 - s)) == w.RotateLeft(s)
  {
    if
    case s == 4 => assert (w << 4) | (w >> 28) == w.RotateLeft(4);
    case s == 11 => assert (w << 11) | (w >> 21) == w.RotateLeft(11);
    case s == 16 => assert (w << 16) | (w >> 16) == w.RotateLeft(16);
    case s == 23 => assert (w << 23) | (w >> 9) == w.RotateLeft(23);
  }

  lemma RotateByRound4(w: Word, s: nat)
    requires s in {6, 10, 15, 21}
    ensures (w << s) | (w >> (32 - s)) == w.RotateLeft(s)
  {
    if
    case s == 6 => assert (w << 6) | (w >> 26) == w.RotateLeft(6);
    case s == 10 => assert (w << 10) | (w >> 22) == w.RotateLeft(10);
    case s == 15 => assert (w << 15) | (w >> 17) == w.RotateLeft(15);
    case s == 21 => assert (w << 21) | (w >> 11) == w.RotateLeft(21);
  }

  function Low(w: Word): Byte {
    ((w & 0xFF) as bv8) as int
  }

  function High(w: Word): Word {
    w >> 8
  }

  /** The octets of a word, lowest first. */
  function Octets(w: Word): (r: seq<Byte>)
    ensures |r| == 4
  {
    [Low(w), Low(High(w)), Low(High(High(w))), Low(High(High(High(w))))]
  }

  /** The word with these octets, lowest first. */
  function FromOctets(a: Byte, b: Byte, c: Byte, d: Byte): Word {
    Assembled(a as bv8, b as bv8, c as bv8, d as bv8)
  }

  function Assembled(a: bv8, b: bv8, c: bv8, d: bv8): Word {
    (a as Word) | ((b as Word) << 8) | ((c as Word) << 16) | ((d as Word) << 24)
  }

  lemma Disassembled(a: bv8, b: bv8, c: bv8, d: bv8)
    ensures var w := Assembled(a, b, c, d);
            && ((w & 0xFF) as bv8) == a && (((w >> 8) & 0xFF) as bv8) == b
            && ((((w >> 8) >> 8) & 0xFF) as bv8) == c && (((((w >> 8) >> 8) >> 8) & 0xFF) as bv8) == d
  {
  }

  /** A word has the octets it is made of. */
  lemma OctetsBack(a: Byte, b: Byte, c: Byte, d: Byte)
    ensures Octets(FromOctets(a, b, c, d)) == [a, b, c, d]
  {
    hide Assembled;
    Disassembled(a as bv8, b as bv8, c as bv8, d as bv8);
    ByteIsBits(a);
    ByteIsBits(b);
    ByteIsBits(c);
    ByteIsBits(d);
  }

  /** The initial values as section 3.3 of RFC 1321 lists them, low-order octets first. */
  lemma InitialOctets()
    ensures Octets(0x67452301) == [0x01, 0x23, 0x45, 0x67]
    ensures Octets(0xEFCDAB89) == [0x89, 0xAB, 0xCD, 0xEF]
    ensures Octets(0x98BADCFE) == [0xFE, 0xDC, 0xBA, 0x98]
    ensures Octets(0x10325476) == [0x76, 0x54, 0x32, 0x10]
  {
  }

  /** What the loop of `genDigest` pushes for a word: it stops when nothing but zeros is left. */
  function Pushed(w: Word): seq<Byte>
    decreases w
  {
    if w == 0 then [] else [Low(w)] + Pushed(High(w))
  }

  /** How many octets are left when the high zero octets are dropped. */
  function Significant(w: Word): (n: nat)
    ensures n <= 4
  {
    if w == 0 then 0
    else if High(w) == 0 then 1
    else if High(High(w)) == 0 then 2
    else if High(High(High(w))) == 0 then 3
    else 4
  }

  lemma AllSignificant(w: Word)
    ensures Significant(w) == 4 <==> w >= 0x100_0000
  {
  }

  lemma PushedStep(w: Word)
    ensures Pushed(w) == if w == 0 then [] else [Low(w)] + Pushed(High(w))
  {
  }

  lemma FourShifts(w: Word)
    ensures High(High(High(High(w)))) == 0
  {
  }

  /** The high octets that are zero are missing. */
  lemma PushedOctets(w: Word)
    ensures Pushed(w) == Octets(w)[..Significant(w)]
  {
    hide Pushed, Low, High;
    PushedStep(w);
    PushedStep(High(w));
    PushedStep(High(High(w)));
    PushedStep(High(High(High(w))));
    FourShifts(w);
    PushedStep(0);
  }
}
