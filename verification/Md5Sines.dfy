/** The additive constants of RFC 1321 (section 3.4): the integer parts of 2^32 times |sin(1)|, ..., |sin(64)|. */
module Md5Sines {
  import opened Md5Tables

  // The sine and the cosine of the natural numbers.

  /** 1 / k! */
  function Term(k: nat): real {
    if k == 0 then 1.0 else Term(k - 1) / k as real
  }

  /** The first `n` terms of the series of the sine at 1. */
  function SinSum(n: nat): real {
    if n == 0 then 0.0
    else if n % 2 == 1 then SinSum(n - 1) + Term(2 * n - 1)
    else SinSum(n - 1) - Term(2 * n - 1)
  }

  /** The first `n` terms of the series of the cosine at 1. */
  function CosSum(n: nat): real {
    if n == 0 then 0.0
    else if n % 2 == 1 then CosSum(n - 1) + Term(2 * n - 2)
    else CosSum(n - 1) - Term(2 * n - 2)
  }

  /** `s` and `c` are the sine and the cosine on the natural numbers: their values at 1 lie between all consecutive
      partial sums of their series, and the others follow from the addition theorems. */
  ghost predicate SineAndCosine(s: nat -> real, c: nat -> real) {
    && s(0) == 0.0 && c(0) == 1.0
    && (forall n: nat :: SinSum(2 * n) <= s(1) <= SinSum(2 * n + 1) && CosSum(2 * n) <= c(1) <= CosSum(2 * n + 1))
    && (forall n: nat :: s(n + 1) == s(n) * c(1) + c(n) * s(1) && c(n + 1) == c(n) * c(1) - s(n) * s(1))
  }

  function Abs(x: real): real {
    if x < 0.0 then -x else x
  }

  /** `t` is the integer part of 2^32 times |x|. */
  predicate Scaled(x: real, t: int) {
    t as real <= 4294967296.0 * Abs(x) < t as real + 1.0
  }

  // At 1.

  datatype Sums = Sums(term: real, sin: real, cos: real)

  predicate At(p: Sums, n: nat) {
    p == Sums(Term(2 * n), SinSum(n), CosSum(n))
  }

  lemma NextTerms(n: nat, p: Sums) returns (q: Sums)
    requires At(p, n)
    ensures At(q, n + 1)
    ensures q.sin == if n % 2 == 0 then p.sin + p.term / (2 * n + 1) as real else p.sin - p.term / (2 * n + 1) as real
    ensures q.cos == if n % 2 == 0 then p.cos + p.term else p.cos - p.term
    ensures q.term == p.term / (2 * n + 1) as real / (2 * n + 2) as real
  {
    NextTerm(2 * n);
    NextTerm(2 * n + 1);
    NextSums(n);
    hide Term, SinSum, CosSum;
    assert 2 * (n + 1) == 2 * n + 2;
    q := Sums(Term(2 * n + 2), SinSum(n + 1), CosSum(n + 1));
  }

  lemma NextSums(n: nat)
    ensures SinSum(n + 1) == if n % 2 == 0 then SinSum(n) + Term(2 * n + 1) else SinSum(n) - Term(2 * n + 1)
    ensures CosSum(n + 1) == if n % 2 == 0 then CosSum(n) + Term(2 * n) else CosSum(n) - Term(2 * n)
  {
    hide Term;
  }

  lemma NextTerm(k: nat)
    ensures Term(k + 1) == Term(k) / (k + 1) as real
  {
  }

  lemma Sums4(p: Sums) returns (q: Sums)
    requires At(p, 0)
    requires p == Sums(1.0, 0.0, 0.0)
    ensures At(q, 4)
    ensures q == Sums(1.0 / 40320.0, 4241.0 / 5040.0, 389.0 / 720.0)
  {
    hide At;
    q := NextTerms(0, p);
    q := NextTerms(1, q);
    q := NextTerms(2, q);
    q := NextTerms(3, q);
  }

  lemma Sums8(p: Sums) returns (q: Sums)
    requires At(p, 4)
    requires p == Sums(1.0 / 40320.0, 4241.0 / 5040.0, 389.0 / 720.0)
    ensures At(q, 8)
    ensures q == Sums(1.0 / 20922789888000.0, 1100370038249.0 / 1307674368000.0, 47102631757.0 / 87178291200.0)
  {
    hide At;
    q := NextTerms(4, p);
    q := NextTerms(5, q);
    q := NextTerms(6, q);
    q := NextTerms(7, q);
  }

  lemma Sums12(p: Sums) returns (q: Sums)
    requires At(p, 8)
    requires p == Sums(1.0 / 20922789888000.0, 1100370038249.0 / 1307674368000.0, 47102631757.0 / 87178291200.0)
    ensures At(q, 12)
    ensures q == Sums(1.0 / 620448401733239439360000.0,
                  4350744396907953273869.0 / 5170403347776995328000.0,
                  607300185015708631061.0 / 1124000727777607680000.0)
  {
    hide At;
    q := NextTerms(8, p);
    q := NextTerms(9, q);
    q := NextTerms(10, q);
    q := NextTerms(11, q);
  }

  predicate Close(x: real, a: real, e: real) {
    a - e <= x <= a + e
  }

  /** A number of units of 10^-24. */
  function Units(a: int): real {
    a as real / 1_000_000_000_000_000_000_000_000.0
  }

  lemma AtOne(s: nat -> real, c: nat -> real)
    requires SineAndCosine(s, c)
    ensures Close(s(1), Units(841470984807896506652502), Units(2)) && Close(s(1), 0.0, 0.8415)
    ensures Close(c(1), Units(540302305868139717400936), Units(2)) && Close(c(1), 0.0, 0.5404)
  {
    hide SineAndCosine;
    var p := Sums4(Sums(1.0, 0.0, 0.0));
    hide At;
    p := Sums8(p);
    p := Sums12(p);
    var q := NextTerms(12, p);
    Between(s, c, p, q);
  }

  lemma Between(s: nat -> real, c: nat -> real, p: Sums, q: Sums)
    requires SineAndCosine(s, c) && At(p, 12) && At(q, 13)
    ensures p.sin <= s(1) <= q.sin && p.cos <= c(1) <= q.cos
  {
    hide SinSum, CosSum, Term;
    assert SinSum(2 * 6) <= s(1) <= SinSum(2 * 6 + 1) && CosSum(2 * 6) <= c(1) <= CosSum(2 * 6 + 1);
  }

  // From one number to the next: errors grow by two fifths at most.

  function Times(x: real, y: real): real {
    x * y
  }

  lemma Product(x: real, y: real, a: real, b: real)
    requires Close(x, 0.0, a) && Close(y, 0.0, b)
    ensures Close(Times(x, y), 0.0, a * b)
  {
    assert 0.0 <= (a - x) * (b + y) && 0.0 <= (a + x) * (b - y);
    assert 0.0 <= (a - x) * (b - y) && 0.0 <= (a + x) * (b + y);
  }

  lemma Expand(x: real, y: real, a: real, b: real, c: real, s: real, p: real, q: real)
    ensures x * c + y * s - (a * p + b * q) == Times(x - a, c) + Times(y - b, s) + Times(a, c - p) + Times(b, s - q)
  {
  }

  lemma FourErrors(u: real, v: real, a: real, b: real, c: real, d: real, unit: real, e: real)
    requires u - v == a + b + c + d && e >= 300.0 * unit
    requires Close(a, 0.0, e * 0.5404) && Close(b, 0.0, e * 0.8415)
    requires Close(c, 0.0, 1.1 * (2.0 * unit)) && Close(d, 0.0, 1.1 * (2.0 * unit))
    ensures Close(u, v, 1.4 * e - unit)
  {
  }

  /** `x` and `y` are known as `a` and `b` up to `e`, and `c` and `s` as `p` and `q` up to two units. */
  lemma Combination(x: real, y: real, a: real, b: real, c: real, s: real, p: real, q: real, unit: real, e: real,
                    u: real, v: real)
    requires u == x * c + y * s && v == a * p + b * q
    requires Close(x, a, e) && Close(y, b, e) && Close(c, p, 2.0 * unit) && Close(s, q, 2.0 * unit)
    requires Close(c, 0.0, 0.5404) && Close(s, 0.0, 0.8415)
    requires Close(a, 0.0, 1.1) && Close(b, 0.0, 1.1) && e >= 300.0 * unit
    ensures Close(u, v, 1.4 * e - unit)
  {
    hide Times;
    Product(x - a, c, e, 0.5404);
    Product(y - b, s, e, 0.8415);
    Product(a, c - p, 1.1, 2.0 * unit);
    Product(b, s - q, 1.1, 2.0 * unit);
    Expand(x, y, a, b, c, s, p, q);
    FourErrors(u, v, Times(x - a, c), Times(y - b, s), Times(a, c - p), Times(b, s - q), unit, e);
  }

  /** `r` is `a` cos 1 + `b` sin 1 in units, rounded down. */
  predicate Combines(a: int, b: int, r: int) {
    var v := a * 540302305868139717400936 + b * 841470984807896506652502;
    0 <= v - 1_000_000_000_000_000_000_000_000 * r < 1_000_000_000_000_000_000_000_000
  }

  lemma CombinesClosely(a: int, b: int, r: int, v: real)
    requires Combines(a, b, r)
    requires v == Units(a) * Units(540302305868139717400936) + Units(b) * Units(841470984807896506652502)
    ensures Close(Units(r), v, Units(1))
  {
    var m := a * 540302305868139717400936 + b * 841470984807896506652502;
    assert m as real == a as real * 540302305868139717400936.0 + b as real * 841470984807896506652502.0;
    var rest := m - 1_000_000_000_000_000_000_000_000 * r;
    assert rest as real == m as real - 1_000_000_000_000_000_000_000_000.0 * r as real;
    ScaleDown(a, 540302305868139717400936, b, 841470984807896506652502, v);
    hide Combines;
    assert v == m as real / 1_000_000_000_000_000_000_000_000.0 / 1_000_000_000_000_000_000_000_000.0;
  }

  lemma ScaleDown(a: int, p: int, b: int, q: int, v: real)
    requires v == Units(a) * Units(p) + Units(b) * Units(q)
    ensures v == (a as real * p as real + b as real * q as real)
                 / 1_000_000_000_000_000_000_000_000.0 / 1_000_000_000_000_000_000_000_000.0
  {
  }

  predicate Small(a: int) {
    -1_100_000_000_000_000_000_000_000 <= a <= 1_100_000_000_000_000_000_000_000
  }

  lemma UnitFacts(a: int, e: int, e': int)
    requires Small(a) && e >= 300 && 10 * e' >= 14 * e
    ensures Close(Units(a), 0.0, 1.1) && Units(2) == 2.0 * Units(1)
    ensures Units(e) >= 300.0 * Units(1) && 1.4 * Units(e) <= Units(e')
  {
  }

  lemma OppositeUnits(x: real, a: int, e: real)
    requires Close(x, Units(a), e)
    ensures Close(-x, Units(-a), e)
  {
  }

  lemma Combined(x: real, y: real, a: int, b: int, c: real, s: real, r: int, e: int, e': int, u: real)
    requires u == x * c + y * s && Combines(a, b, r) && Small(a) && Small(b) && e >= 300 && 10 * e' >= 14 * e
    requires Close(x, Units(a), Units(e)) && Close(y, Units(b), Units(e))
    requires Close(c, Units(540302305868139717400936), Units(2)) && Close(c, 0.0, 0.5404)
    requires Close(s, Units(841470984807896506652502), Units(2)) && Close(s, 0.0, 0.8415)
    ensures Close(u, Units(r), Units(e'))
  {
    hide Units, Combines, Small;
    var p, q := Units(540302305868139717400936), Units(841470984807896506652502);
    var v := Units(a) * p + Units(b) * q;
    UnitFacts(a, e, e');
    UnitFacts(b, e, e');
    CombinesClosely(a, b, r, v);
    Combination(x, y, Units(a), Units(b), c, s, p, q, Units(1), Units(e), u, v);
  }

  /** The sine and the cosine of a number in units, and a bound for the error. */
  datatype Angle = Angle(sin: int, cos: int, error: int)

  ghost predicate Approximates(s: nat -> real, c: nat -> real, n: nat, p: Angle) {
    && Close(s(n), Units(p.sin), Units(p.error)) && Close(c(n), Units(p.cos), Units(p.error))
    && p.error >= 300 && Small(p.sin) && Small(p.cos)
  }

  predicate Follows(p: Angle, q: Angle) {
    && Combines(p.sin, p.cos, q.sin) && Combines(p.cos, -p.sin, q.cos)
    && 10 * q.error >= 14 * p.error && Small(q.sin) && Small(q.cos)
  }

  lemma NextNumber(s: nat -> real, c: nat -> real, n: nat, p: Angle, q: Angle)
    requires SineAndCosine(s, c) && Approximates(s, c, n, p) && Follows(p, q)
    ensures Approximates(s, c, n + 1, q)
  {
    hide Units, Close, Combines, SinSum, CosSum;
    AtOne(s, c);
    OppositeUnits(s(n), p.sin, Units(p.error));
    Combined(s(n), c(n), p.sin, p.cos, c(1), s(1), q.sin, p.error, q.error, s(n + 1));
    Opposed(c(n), s(n), c(1), s(1), c(n + 1));
    Combined(c(n), -s(n), p.cos, -p.sin, c(1), s(1), q.cos, p.error, q.error, c(n + 1));
  }

  lemma Opposed(y: real, x: real, c: real, s: real, u: real)
    requires u == y * c - x * s
    ensures u == y * c + (-x) * s
  {
  }

  /** The integer part is the same for all values that close. */
  predicate Fits(p: Angle, t: int) {
    var a := if p.sin < 0 then -p.sin else p.sin;
    && t * 1_000_000_000_000_000_000_000_000 + 4294967296 * p.error <= 4294967296 * a
    && 4294967296 * a < (t + 1) * 1_000_000_000_000_000_000_000_000 - 4294967296 * p.error
  }

  lemma FitsScaled(x: real, p: Angle, t: int)
    requires Close(x, Units(p.sin), Units(p.error)) && Fits(p, t)
    ensures Scaled(x, t)
  {
    var a := if p.sin < 0 then -p.sin else p.sin;
    assert a as real == Abs(p.sin as real);
  }

  lemma NextConstant(s: nat -> real, c: nat -> real, n: nat, p: Angle, q: Angle, t: int)
    requires SineAndCosine(s, c) && Approximates(s, c, n, p) && Follows(p, q) && Fits(q, t)
    ensures Approximates(s, c, n + 1, q) && Scaled(s(n + 1), t)
  {
    hide SineAndCosine, Units, Close, Follows, Fits, Scaled;
    NextNumber(s, c, n, p, q);
    FitsScaled(s(n + 1), q, t);
  }

  // The table, in rows of sixteen.

  const ANGLES0: seq<Angle> := [
    Angle(0, 1000000000000000000000000, 300),
    Angle(841470984807896506652502, 540302305868139717400936, 420),
    Angle(909297426825681695396018, -416146836547142386997569, 588),
    Angle(141120008059867222100742, -989992496600445457271572, 824),
    Angle(-756802495307928251372640, -653643620863611914639165, 1154),
    Angle(-958924274663138468893152, 283662185463226264466641, 1616),
    Angle(-279415498198925872811553, 960170286650366020545650, 2263),
    Angle(656986598718789090396998, 753902254343304638141193, 3169),
    Angle(989358246623381777808118, -145500033808613525868844, 4437),
    Angle(412118485241756569756266, -911130261884676988368292, 6212),
    Angle(-544021110889369813404749, -839071529076452452258857, 8697),
    Angle(-999990206550703457051560, 4425697988050785748360, 12176),
    Angle(-536572918000434971665367, 843853958732492104653953, 17047),
    Angle(420167036826640921868957, 907446781450196213852678, 23866),
    Angle(990607355694870307875348, 136737218207833594248922, 33413),
    Angle(650287840157116865829730, -759687912858821273848145, 46779),
    Angle(-287903316665065294784461, -957659480323384641899628, 65491)
  ]

  const ANGLES1: seq<Angle> := [
    Angle(-287903316665065294784461, -957659480323384641899628, 65491),
    Angle(-961397491879556857261632, -275163338051596922220334, 91688),
    Angle(-750987246771676103750146, 660316708244080144816100, 128364),
    Angle(149877209662952329754244, 988704618186669252898343, 179710),
    Angle(912945250727627654376093, 408082061813391986062258, 251594),
    Angle(836655638536056031866468, -547729260224268421384271, 352232),
    Angle(-8851309290403875921698, -999960826394637126454164, 493125),
    Angle(-846220404175170635241322, -532833020333397555215745, 690375),
    Angle(-905578362006623845135780, 424179007336996975937054, 966525),
    Angle(-132351750097773028901995, 991202811863473598083284, 1353135),
    Angle(762558450479602737515819, 646919322328640342721368, 1894389),
    Angle(956375928404503013432324, -292138808733836193371410, 2652145),
    Angle(270905788307869019986329, -962605866313566601975442, 3713003),
    Angle(-663633884212967502151172, -748057529689000351765174, 5198205),
    Angle(-988031624092861789987733, 154251449887584050718670, 7277487),
    Angle(-404037645323065006048756, 914742357804531278962426, 10188482),
    Angle(551426681241690550661557, 834223360506510272215507, 14263875)
  ]

  const ANGLES2: seq<Angle> := [
    Angle(551426681241690550661557, 834223360506510272215507, 14263875),
    Angle(999911860107267145728066, -13276747223059478915230, 19969425),
    Angle(529082686120023820832468, -848570274784605186599962, 27957195),
    Angle(-428182669496151004406755, -903692205091506759847283, 39140073),
    Angle(-991778853443115736835272, -127963689627404681028315, 54796103),
    Angle(-643538133356999460685650, 765414051945343356491073, 76714545),
    Angle(296368578709385317392300, 955073644047294857586514, 107400363),
    Angle(963795386284087753260647, 266642932359937251526810, 150360509),
    Angle(745113160479348786987685, -666938061652261844384087, 210504713),
    Angle(-158622668804708987103326, -987339277523826458228801, 294706599),
    Angle(-916521547915633785898974, -399985314988351293954687, 412589239),
    Angle(-831774742628598288209553, 555113301520625677044877, 577624935),
    Angle(17701925105413577807965, 999843308647691220068985, 808674909),
    Angle(850903524534118424862365, 525321988817729696047441, 1132144873),
    Angle(901788347648809185033264, -432177944884778294952777, 1585002823),
    Angle(123573122745224004061512, -992335469150928718279728, 2219003953),
    Angle(-768254661323666799044955, -640144339469199731312913, 3106605535)
  ]

  const ANGLES3: seq<Angle> := [
    Angle(-768254661323666799044955, -640144339469199731312913, 3106605535),
    Angle(-953752652759471818360394, 300592543743637083687032, 4349247749),
    Angle(-262374853703928785914373, 964966028492113274068934, 6088946849),
    Angle(670229175843374734494336, 742154196813782539467346, 8524525589),
    Angle(986627592040485296587537, -162990780795705481003340, 11934335825),
    Angle(395925150181834181503359, -918282786212118891199705, 16708070155),
    Angle(-558789048851616245817868, -829309832863150147727815, 23391298217),
    Angle(-999755173358619836598600, 22126756261955734563580, 32747817504),
    Angle(-521551002086911880187380, 853220107722584113969662, 45846944506),
    Angle(436164755247824959080534, 899866826969193786502964, 64185722309),
    Angle(992872648084537118165056, 119180135448819285435824, 89860011233),
    Angle(636738007139137880771198, -771080222975845229387419, 125804015727),
    Angle(-304810621102216705625656, -952412980415156292693778, 176125622018),
    Angle(-966117770008392947018259, -258101635938267445701181, 246575870826),
    Angle(-739180696649222867275979, 673507162323586252887823, 345206219157),
    Angle(167355700302806921527850, 985896581582549697438597, 483288706820),
    Angle(920026038196790683351509, 391857230429550005161678, 676604189548)
  ]

  /** Each angle follows the one before, and fits the constant at its place. */
  predicate Tabulates(angles: seq<Angle>, constants: seq<nat>) {
    && |angles| == 17 && |constants| == 16
    && forall k :: 0 <= k < 16 ==> Good(angles[k], angles[k + 1], constants[k])
  }

  predicate Good(p: Angle, q: Angle, t: nat) {
    Follows(p, q) && Fits(q, t)
  }

  lemma Row0()
    ensures Tabulates(ANGLES0, T_ROW0)
  {
    assert Good(ANGLES0[0], ANGLES0[1], T_ROW0[0]);
    assert Good(ANGLES0[1], ANGLES0[2], T_ROW0[1]);
    assert Good(ANGLES0[2], ANGLES0[3], T_ROW0[2]);
    assert Good(ANGLES0[3], ANGLES0[4], T_ROW0[3]);
    assert Good(ANGLES0[4], ANGLES0[5], T_ROW0[4]);
    assert Good(ANGLES0[5], ANGLES0[6], T_ROW0[5]);
    assert Good(ANGLES0[6], ANGLES0[7], T_ROW0[6]);
    assert Good(ANGLES0[7], ANGLES0[8], T_ROW0[7]);
    assert Good(ANGLES0[8], ANGLES0[9], T_ROW0[8]);
    assert Good(ANGLES0[9], ANGLES0[10], T_ROW0[9]);
    assert Good(ANGLES0[10], ANGLES0[11], T_ROW0[10]);
    assert Good(ANGLES0[11], ANGLES0[12], T_ROW0[11]);
    assert Good(ANGLES0[12], ANGLES0[13], T_ROW0[12]);
    assert Good(ANGLES0[13], ANGLES0[14], T_ROW0[13]);
    assert Good(ANGLES0[14], ANGLES0[15], T_ROW0[14]);
    assert Good(ANGLES0[15], ANGLES0[16], T_ROW0[15]);
    hide Good;
  }

  lemma Row1()
    ensures Tabulates(ANGLES1, T_ROW1)
  {
    assert Good(ANGLES1[0], ANGLES1[1], T_ROW1[0]);
    assert Good(ANGLES1[1], ANGLES1[2], T_ROW1[1]);
    assert Good(ANGLES1[2], ANGLES1[3], T_ROW1[2]);
    assert Good(ANGLES1[3], ANGLES1[4], T_ROW1[3]);
    assert Good(ANGLES1[4], ANGLES1[5], T_ROW1[4]);
    assert Good(ANGLES1[5], ANGLES1[6], T_ROW1[5]);
    assert Good(ANGLES1[6], ANGLES1[7], T_ROW1[6]);
    assert Good(ANGLES1[7], ANGLES1[8], T_ROW1[7]);
    assert Good(ANGLES1[8], ANGLES1[9], T_ROW1[8]);
    assert Good(ANGLES1[9], ANGLES1[10], T_ROW1[9]);
    assert Good(ANGLES1[10], ANGLES1[11], T_ROW1[10]);
    assert Good(ANGLES1[11], ANGLES1[12], T_ROW1[11]);
    assert Good(ANGLES1[12], ANGLES1[13], T_ROW1[12]);
    assert Good(ANGLES1[13], ANGLES1[14], T_ROW1[13]);
    assert Good(ANGLES1[14], ANGLES1[15], T_ROW1[14]);
    assert Good(ANGLES1[15], ANGLES1[16], T_ROW1[15]);
    hide Good;
  }

  lemma Row2()
    ensures Tabulates(ANGLES2, T_ROW2)
  {
    assert Good(ANGLES2[0], ANGLES2[1], T_ROW2[0]);
    assert Good(ANGLES2[1], ANGLES2[2], T_ROW2[1]);
    assert Good(ANGLES2[2], ANGLES2[3], T_ROW2[2]);
    assert Good(ANGLES2[3], ANGLES2[4], T_ROW2[3]);
    assert Good(ANGLES2[4], ANGLES2[5], T_ROW2[4]);
    assert Good(ANGLES2[5], ANGLES2[6], T_ROW2[5]);
    assert Good(ANGLES2[6], ANGLES2[7], T_ROW2[6]);
    assert Good(ANGLES2[7], ANGLES2[8], T_ROW2[7]);
    assert Good(ANGLES2[8], ANGLES2[9], T_ROW2[8]);
    assert Good(ANGLES2[9], ANGLES2[10], T_ROW2[9]);
    assert Good(ANGLES2[10], ANGLES2[11], T_ROW2[10]);
    assert Good(ANGLES2[11], ANGLES2[12], T_ROW2[11]);
    assert Good(ANGLES2[12], ANGLES2[13], T_ROW2[12]);
    assert Good(ANGLES2[13], ANGLES2[14], T_ROW2[13]);
    assert Good(ANGLES2[14], ANGLES2[15], T_ROW2[14]);
    assert Good(ANGLES2[15], ANGLES2[16], T_ROW2[15]);
    hide Good;
  }

  lemma Row3()
    ensures Tabulates(ANGLES3, T_ROW3)
  {
    assert Good(ANGLES3[0], ANGLES3[1], T_ROW3[0]);
    assert Good(ANGLES3[1], ANGLES3[2], T_ROW3[1]);
    assert Good(ANGLES3[2], ANGLES3[3], T_ROW3[2]);
    assert Good(ANGLES3[3], ANGLES3[4], T_ROW3[3]);
    assert Good(ANGLES3[4], ANGLES3[5], T_ROW3[4]);
    assert Good(ANGLES3[5], ANGLES3[6], T_ROW3[5]);
    assert Good(ANGLES3[6], ANGLES3[7], T_ROW3[6]);
    assert Good(ANGLES3[7], ANGLES3[8], T_ROW3[7]);
    assert Good(ANGLES3[8], ANGLES3[9], T_ROW3[8]);
    assert Good(ANGLES3[9], ANGLES3[10], T_ROW3[9]);
    assert Good(ANGLES3[10], ANGLES3[11], T_ROW3[10]);
    assert Good(ANGLES3[11], ANGLES3[12], T_ROW3[11]);
    assert Good(ANGLES3[12], ANGLES3[13], T_ROW3[12]);
    assert Good(ANGLES3[13], ANGLES3[14], T_ROW3[13]);
    assert Good(ANGLES3[14], ANGLES3[15], T_ROW3[14]);
    assert Good(ANGLES3[15], ANGLES3[16], T_ROW3[15]);
    hide Good;
  }

  lemma {:induction false} RowConstants(s: nat -> real, c: nat -> real, start: nat, angles: seq<Angle>,
                                        constants: seq<nat>, n: nat)
    requires SineAndCosine(s, c) && Tabulates(angles, constants) && Approximates(s, c, start, angles[0]) && n <= 16
    ensures Approximates(s, c, start + n, angles[n])
    ensures forall k: nat :: k < n ==> Scaled(s(start + k + 1), constants[k])
  {
    hide SineAndCosine, Approximates, Follows, Fits, Scaled;
    if n > 0 {
      RowConstants(s, c, start, angles, constants, n - 1);
      NextConstant(s, c, start + n - 1, angles[n - 1], angles[n], constants[n - 1]);
    }
  }

  ghost predicate IsRow(s: nat -> real, start: nat, constants: seq<nat>) {
    |constants| == 16 && forall k: nat :: k < 16 ==> Scaled(s(start + k + 1), constants[k])
  }

  lemma WholeRow(s: nat -> real, c: nat -> real, start: nat, p: Angle, angles: seq<Angle>, constants: seq<nat>,
                 q: Angle)
    requires SineAndCosine(s, c) && Tabulates(angles, constants) && Approximates(s, c, start, p)
    requires |angles| == 17 && p == angles[0] && q == angles[16]
    ensures IsRow(s, start, constants) && Approximates(s, c, start + 16, q)
  {
    hide SineAndCosine, Approximates, Good, Scaled;
    RowConstants(s, c, start, angles, constants, 16);
  }

  lemma AllRows(s: nat -> real, c: nat -> real)
    requires SineAndCosine(s, c)
    ensures IsRow(s, 0, T_ROW0) && IsRow(s, 16, T_ROW1) && IsRow(s, 32, T_ROW2) && IsRow(s, 48, T_ROW3)
  {
    AtZero(s, c);
    AllFollow();
    hide *;
    WholeRow(s, c, 0, ANGLES0[0], ANGLES0, T_ROW0, ANGLES0[16]);
    WholeRow(s, c, 16, ANGLES1[0], ANGLES1, T_ROW1, ANGLES1[16]);
    WholeRow(s, c, 32, ANGLES2[0], ANGLES2, T_ROW2, ANGLES2[16]);
    WholeRow(s, c, 48, ANGLES3[0], ANGLES3, T_ROW3, ANGLES3[16]);
  }

  /** Whatever function is the sine: the constant of step `t` is the integer part of 2^32 times |sin(t + 1)|. */
  lemma ConstantIsSine(s: nat -> real, c: nat -> real, t: Step)
    requires SineAndCosine(s, c)
    ensures Scaled(s(t + 1), Constant(t))
  {
    AllRows(s, c);
    InRow(t);
    hide *;
    if t < 16 {
      AtPlace(s, 0, T_ROW0, t);
    } else if t < 32 {
      AtPlace(s, 16, T_ROW1, t - 16);
    } else if t < 48 {
      AtPlace(s, 32, T_ROW2, t - 32);
    } else {
      AtPlace(s, 48, T_ROW3, t - 48);
    }
  }

  lemma AtPlace(s: nat -> real, start: nat, constants: seq<nat>, k: nat)
    requires IsRow(s, start, constants) && k < 16
    ensures k < |constants| && Scaled(s(start + k + 1), constants[k])
  {
    hide Scaled;
  }

  lemma InRow(t: Step)
    ensures |T_ROW0| == |T_ROW1| == |T_ROW2| == |T_ROW3| == 16
    ensures Constant(t) == if t < 16 then T_ROW0[t] else if t < 32 then T_ROW1[t - 16]
                           else if t < 48 then T_ROW2[t - 32] else T_ROW3[t - 48]
  {
    assert t % 16 == if t < 16 then t else if t < 32 then t - 16 else if t < 48 then t - 32 else t - 48;
    hide T_ROW0, T_ROW1, T_ROW2, T_ROW3;
  }

  lemma AllFollow()
    ensures Tabulates(ANGLES0, T_ROW0) && Tabulates(ANGLES1, T_ROW1)
    ensures Tabulates(ANGLES2, T_ROW2) && Tabulates(ANGLES3, T_ROW3)
    ensures |ANGLES0| == |ANGLES1| == |ANGLES2| == |ANGLES3| == 17
    ensures ANGLES0[16] == ANGLES1[0] && ANGLES1[16] == ANGLES2[0] && ANGLES2[16] == ANGLES3[0]
  {
    Row0();
    Row1();
    Row2();
    Row3();
    hide Tabulates;
  }

  lemma AtZero(s: nat -> real, c: nat -> real)
    requires SineAndCosine(s, c)
    ensures Approximates(s, c, 0, ANGLES0[0])
  {
    assert ANGLES0[0] == Angle(0, 1000000000000000000000000, 300);
  }
}
