/** The consistent-hash ring of netrpc/common/consistent_hash.cc; the hash function is a parameter. */
module ConsistentHashing {
  import opened Bytes
  import opened Numerals

  const CIRCLE: int := 0x1_0000_0000
  type Point = p: int | 0 <= p < 0x1_0000_0000
  type Hash = string -> Point

  /** Virtual nodes: the point on the circle, and the index of the machine behind it. */
  type Ring = map<Point, nat>

  // The keys of virtual nodes.

  function NodeKey(i: Int32, j: nat): string {
    "SHARD-" + (Signed(i) + ("-NODE-" + Decimal(j)))
  }

  /** `s` is how a number below or above zero is printed. */
  predicate Prints(s: string, n: int) {
    var digits := if n < 0 && s != "" then s[1..] else s;
    (n < 0 ==> s != "" && s[0] == '-') && AllDigits(digits) && Shortest(digits) && Number(digits) == Max(n, -n)
  }

  /** The text of a key. */
  lemma NodeKeyText(i: Int32, j: nat)
    ensures exists a, b :: NodeKey(i, j) == "SHARD-" + a + "-NODE-" + b && Prints(a, i) && Prints(b, j)
  {
    hide Decimal, Number;
    var m: int := i;
    var n := Max(m, -m);
    DecimalNumber(n);
    DecimalNumber(j);
    DecimalShortest(n);
    DecimalShortest(j);
    assert i < 0 ==> Signed(i)[1..] == Decimal(n);
    var a, b := Signed(i), Decimal(j);
    assert "SHARD-" + (a + ("-NODE-" + b)) == "SHARD-" + a + "-NODE-" + b;
    assert Prints(a, i) && Prints(b, j);
  }

  /** Different virtual nodes have different keys, so only the hash can make them collide. */
  lemma NodeKeyInjective(i: Int32, j: nat, k: Int32, l: nat)
    requires NodeKey(i, j) == NodeKey(k, l)
    ensures i == k && j == l
  {
    hide Signed, Decimal, Number;
    var a, b := Signed(i), Signed(k);
    var s, t := a + ("-NODE-" + Decimal(j)), b + ("-NODE-" + Decimal(l));
    assert s == NodeKey(i, j)[6..] && t == NodeKey(k, l)[6..];
    assert s[|a|] == '-' && t[|b|] == '-';
    assert forall n :: 1 <= n < |a| ==> s[n] == a[n] != '-';
    assert forall n :: 1 <= n < |b| ==> t[n] == b[n] != '-';
    assert |a| == |b|;
    assert a == s[..|a|] == b;
    SignedInjective(i, k);
    assert Decimal(j) == s[|a| + 6..] == Decimal(l);
    DecimalNumber(j);
    DecimalNumber(l);
  }

  function At(hash: Hash, i: Int32, j: nat): Point {
    hash(NodeKey(i, j))
  }

  /** The first `n` points of machine `i`. */
  function Points(hash: Hash, i: Int32, n: int): set<Point> {
    set j | 0 <= j < n :: At(hash, i, j)
  }

  /** `index` converted to `size_t`. */
  function Owner(i: Int32): (k: nat)
    ensures k < 0x1_0000_0000_0000_0000 && (k - i) % 0x1_0000_0000_0000_0000 == 0
  {
    if i < 0 then i + 0x1_0000_0000_0000_0000 else i
  }

  // What the operations make of the ring.

  function Added(ring: Ring, points: set<Point>, owner: nat): Ring {
    map p | p in ring.Keys + points :: if p in ring then ring[p] else owner
  }

  function Deleted(ring: Ring, points: set<Point>): Ring {
    ring - points
  }

  function Initial(hash: Hash, virtuals: int, ring: Ring, n: nat): Ring
    requires n <= INT_MAX
  {
    if n == 0 then ring
    else Added(Initial(hash, virtuals, ring, n - 1), Points(hash, n - 1, virtuals), Owner(n - 1))
  }

  /** `p` is a point of machine `i`. */
  predicate Claims(hash: Hash, virtuals: int, i: Int32, p: Point) {
    exists j :: 0 <= j < virtuals && p == hash(NodeKey(i, j))
  }

  /** A new ring holds the points of all machines, and each belongs to the first machine that claims it. */
  lemma {:induction false} InitialOwners(hash: Hash, virtuals: int, n: nat, p: Point)
    requires n <= INT_MAX
    ensures var ring := Initial(hash, virtuals, map[], n);
            && (p in ring <==> exists i: Int32 :: 0 <= i < n && Claims(hash, virtuals, i, p))
            && (p in ring ==> ring[p] < n && Claims(hash, virtuals, ring[p], p)
                              && forall i: Int32 :: 0 <= i < ring[p] ==> !Claims(hash, virtuals, i, p))
  {
    hide NodeKey;
    if n > 0 {
      InitialOwners(hash, virtuals, n - 1, p);
      PointsAreClaims(hash, virtuals, n - 1, p);
    }
  }

  lemma PointsAreClaims(hash: Hash, virtuals: int, i: Int32, p: Point)
    ensures p in Points(hash, i, virtuals) <==> Claims(hash, virtuals, i, p)
  {
    if p in Points(hash, i, virtuals) {
      var j :| 0 <= j < virtuals && p == At(hash, i, j);
      assert p == hash(NodeKey(i, j));
    }
    if Claims(hash, virtuals, i, p) {
      var j :| 0 <= j < virtuals && p == hash(NodeKey(i, j));
      assert p == At(hash, i, j);
    }
  }

  /** How far clockwise `q` is from `p`. */
  function Distance(p: Point, q: Point): (d: nat)
    ensures d == (q - p) % CIRCLE
  {
    if q >= p then q - p else q - p + CIRCLE
  }

  /** No point of the ring is nearer to `p`, clockwise, than `q`. */
  predicate IsNearest(ring: Ring, p: Point, q: Point) {
    q in ring && forall x :: x in ring ==> Distance(p, q) <= Distance(p, x)
  }

  /** The point a key at `p` is sent to: the nearest one clockwise. */
  ghost function Target(ring: Ring, p: Point): (q: Point)
    requires ring != map[]
    ensures IsNearest(ring, p, q)
  {
    var e :| e in ring;
    NearestExists(ring, p, e);
    var q :| IsNearest(ring, p, q);
    q
  }

  lemma {:induction false} NearestExists(ring: Ring, p: Point, e: Point)
    requires e in ring
    ensures exists q :: IsNearest(ring, p, q)
    decreases Distance(p, e)
  {
    if x :| x in ring && Distance(p, x) < Distance(p, e) {
      NearestExists(ring, p, x);
    } else {
      assert IsNearest(ring, p, e);
    }
  }

  /** There is only one nearest point. */
  lemma TargetIsNearest(ring: Ring, p: Point, q: Point)
    requires q in ring
    ensures q == Target(ring, p) <==> forall x :: x in ring ==> Distance(p, q) <= Distance(p, x)
  {
    var t := Target(ring, p);
    if forall x :: x in ring ==> Distance(p, q) <= Distance(p, x) {
      assert Distance(p, q) == Distance(p, t);
    }
  }

  ghost function Server(ring: Ring, p: Point): nat
    requires ring != map[]
  {
    ring[Target(ring, p)]
  }

  function Least(s: set<Point>): (q: Point)
    requires s != {}
    ensures q in s && forall x :: x in s ==> q <= x
  {
    var e :| e in s;
    LeastExists(s, e);
    var q :| q in s && forall x :: x in s ==> q <= x;
    q
  }

  lemma {:induction false} LeastExists(s: set<Point>, e: Point)
    requires e in s
    ensures exists q :: q in s && forall x :: x in s ==> q <= x
    decreases e
  {
    if x :| x in s && x < e {
      LeastExists(s, x);
    } else {
      assert forall x :: x in s ==> e <= x;
    }
  }

  /** A position in the ring: a point, or behind the last one. */
  datatype Iterator = End | Before(point: Point)

  /** `lower_bound`: the first point that is not below `p`. */
  function LowerBound(points: set<Point>, p: Point): (it: Iterator)
    ensures it.End? <==> forall x :: x in points ==> x < p
    ensures it.Before? ==>
              it.point in points && p <= it.point && forall x :: x in points && p <= x ==> it.point <= x
  {
    var above := set x | x in points && x >= p;
    if above == {} then
      assert forall x :: x in points && x >= p ==> x in above;
      End
    else
      assert forall x :: x in points && x >= p ==> x in above;
      Before(Least(above))
  }

  /** The answer of a look-up; reading through `begin` of an empty map is undefined. */
  datatype Lookup = Found(index: nat) | Undefined

  class ConsistentHash {
    const nodeNum: Int32
    const virtualNodeNum: Int32
    const hash: Hash
    var serverNodes: Ring

    constructor (nodeNum: Int32, virtualNodeNum: Int32, hash: Hash)
      ensures this.nodeNum == nodeNum && this.virtualNodeNum == virtualNodeNum && this.hash == hash
      ensures serverNodes == map[]
    {
      this.nodeNum, this.virtualNodeNum, this.hash := nodeNum, virtualNodeNum, hash;
      serverNodes := map[];
    }

    /** `std::map::insert`: an owner that is there stays. */
    method Insert(p: Point, owner: nat)
      modifies this
      ensures serverNodes == Added(old(serverNodes), {p}, owner)
    {
      if p !in serverNodes {
        serverNodes := serverNodes[p := owner];
      }
    }

    method Initialize()
      modifies this
      ensures serverNodes == Initial(hash, virtualNodeNum, old(serverNodes), if nodeNum < 0 then 0 else nodeNum)
    {
      var i := 0;
      while i < nodeNum
        invariant 0 <= i && (i <= nodeNum || i == 0)
        invariant serverNodes == Initial(hash, virtualNodeNum, old(serverNodes), i)
      {
        AddNewNode(i);
        i := i + 1;
      }
    }

    /** The owner of the point nearest to the key clockwise, around the circle if need be. */
    method GetServerIndex(key: string) returns (r: Lookup)
      ensures r.Undefined? <==> serverNodes == map[]
      ensures r.Found? ==>
                exists q :: q in serverNodes && r.index == serverNodes[q]
                            && forall x :: x in serverNodes ==> Distance(hash(key), q) <= Distance(hash(key), x)
      ensures r.Found? ==> r.index == Server(serverNodes, hash(key))
    {
      var partition := hash(key);
      var it := LowerBound(serverNodes.Keys, partition);
      if it.End? {
        if serverNodes == map[] {
          return Undefined;
        }
        var begin := Least(serverNodes.Keys);
        TargetIsNearest(serverNodes, partition, begin);
        return Found(serverNodes[begin]);
      }
      TargetIsNearest(serverNodes, partition, it.point);
      return Found(serverNodes[it.point]);
    }

    method DeleteNode(index: Int32)
      modifies this
      ensures serverNodes == Deleted(old(serverNodes), Points(hash, index, virtualNodeNum))
    {
      var j := 0;
      while j < virtualNodeNum
        invariant 0 <= j && (j <= virtualNodeNum || j == 0)
        invariant serverNodes == Deleted(old(serverNodes), Points(hash, index, j))
      {
        var partition := hash(NodeKey(index, j));
        MorePoints(hash, index, j);
        if partition in serverNodes {
          serverNodes := serverNodes - {partition};
        }
        j := j + 1;
      }
      NoMorePoints(hash, index, j, virtualNodeNum);
    }

    method AddNewNode(index: Int32)
      modifies this
      ensures serverNodes == Added(old(serverNodes), Points(hash, index, virtualNodeNum), Owner(index))
    {
      hide Points, Added, NodeKey;
      AddedNone(serverNodes, hash, index);
      var j := 0;
      while j < virtualNodeNum
        invariant 0 <= j && (j <= virtualNodeNum || j == 0)
        invariant serverNodes == Added(old(serverNodes), Points(hash, index, j), Owner(index))
      {
        var partition := hash(NodeKey(index, j));
        MorePoints(hash, index, j);
        AddedMore(old(serverNodes), Points(hash, index, j), partition, Owner(index));
        Insert(partition, Owner(index));
        j := j + 1;
      }
      NoMorePoints(hash, index, j, virtualNodeNum);
    }
  }

  lemma MorePoints(hash: Hash, i: Int32, n: nat)
    ensures Points(hash, i, n + 1) == Points(hash, i, n) + {hash(NodeKey(i, n))}
  {
    assert At(hash, i, n) in Points(hash, i, n + 1);
  }

  lemma AddedMore(ring: Ring, points: set<Point>, p: Point, owner: nat)
    ensures Added(Added(ring, points, owner), {p}, owner) == Added(ring, points + {p}, owner)
  {
  }

  lemma AddedNone(ring: Ring, hash: Hash, i: Int32)
    ensures Added(ring, Points(hash, i, 0), Owner(i)) == ring
  {
  }

  lemma NoMorePoints(hash: Hash, i: Int32, n: nat, m: int)
    requires m <= n && (n <= m || n == 0)
    ensures Points(hash, i, n) == Points(hash, i, m)
  {
  }

  // Where keys go.

  /** A new machine takes keys for itself only: every key that moves, moves to it. */
  lemma AddDisturbsMinimally(ring: Ring, points: set<Point>, owner: nat, p: Point)
    requires ring != map[]
    ensures var ring' := Added(ring, points, owner);
            ring' != map[] && (Server(ring', p) == Server(ring, p) || Server(ring', p) == owner)
    ensures var ring' := Added(ring, points, owner);
            Target(ring', p) != Target(ring, p) ==> Target(ring', p) in points - ring.Keys
  {
    var ring' := Added(ring, points, owner);
    var t, t' := Target(ring, p), Target(ring', p);
    assert t in ring';
    TargetIsNearest(ring, p, t);
    TargetIsNearest(ring', p, t');
    if t' in ring {
      TargetIsNearest(ring, p, t');
    }
  }

  /** After a deletion the keys of surviving points stay, and the keys of a deleted point go where a key at that
      very point would go: to the next survivor clockwise. */
  lemma DeleteSendsOn(ring: Ring, points: set<Point>, p: Point)
    requires Deleted(ring, points) != map[]
    ensures var ring' := Deleted(ring, points);
            ring != map[] &&
            var t := Target(ring, p);
            Target(ring', p) == if t in points then Target(ring', t) else t
  {
    var ring' := Deleted(ring, points);
    var any := Target(ring', p);
    assert any in ring;
    var t := Target(ring, p);
    TargetIsNearest(ring, p, t);
    if t in points {
      var u := Target(ring', t);
      TargetIsNearest(ring', t, u);
      forall x | x in ring' ensures Distance(p, u) <= Distance(p, x) {
        assert Distance(p, t) <= Distance(p, x) && Distance(t, u) <= Distance(t, x);
      }
      TargetIsNearest(ring', p, u);
    } else {
      TargetIsNearest(ring', p, t);
    }
  }

  /** Deleting a machine leaves the keys of all the others on their points exactly when every point it erases is
      its own; `erase` does not look at the owner. */
  lemma DeleteDisturbsMinimallyIff(ring: Ring, points: set<Point>, owner: nat)
    requires Deleted(ring, points) != map[]
    ensures ring != map[]
    ensures (forall p :: Server(ring, p) != owner ==> Target(Deleted(ring, points), p) == Target(ring, p))
            <==> (forall q :: q in points && q in ring ==> ring[q] == owner)
  {
    var ring' := Deleted(ring, points);
    var any := Target(ring', 0);
    assert any in ring;
    forall p: Point ensures Target(ring', p) == if Target(ring, p) in points then Target(ring', Target(ring, p))
                                                else Target(ring, p) {
      DeleteSendsOn(ring, points, p);
    }
    forall q | q in points && q in ring && ring[q] != owner
      ensures Server(ring, q) != owner && Target(ring', q) != Target(ring, q)
    {
      TargetIsNearest(ring, q, q);
    }
  }

  // Histories.

  datatype Op = Add(index: Int32) | Delete(index: Int32)

  function Apply(hash: Hash, virtuals: int, ring: Ring, op: Op): Ring {
    var points := Points(hash, op.index, virtuals);
    match op
    case Add(i) => Added(ring, points, Owner(i))
    case Delete(_) => Deleted(ring, points)
  }

  function Run(hash: Hash, virtuals: int, ring: Ring, ops: seq<Op>): Ring
    decreases |ops|
  {
    if ops == [] then ring else Run(hash, virtuals, Apply(hash, virtuals, ring, ops[0]), ops[1..])
  }

  function LiveAfter(live: set<Int32>, op: Op): set<Int32> {
    match op
    case Add(i) => live + {i}
    case Delete(i) => live - {i}
  }

  function Live(live: set<Int32>, ops: seq<Op>): set<Int32>
    decreases |ops|
  {
    if ops == [] then live else Live(LiveAfter(live, ops[0]), ops[1..])
  }

  /** No point of one machine of `all` is a point of another. */
  ghost predicate NoCollisions(hash: Hash, virtuals: int, all: set<Int32>) {
    forall a, b :: a in all && b in all && a != b ==> Points(hash, a, virtuals) !! Points(hash, b, virtuals)
  }

  /** The ring that holds exactly the points of the live machines, each under its machine. */
  ghost predicate Canonical(hash: Hash, virtuals: int, ring: Ring, live: set<Int32>) {
    && (forall i, p :: i in live && p in Points(hash, i, virtuals) ==> p in ring && ring[p] == Owner(i))
    && (forall p :: p in ring ==> exists i :: i in live && p in Points(hash, i, virtuals))
  }

  lemma CanonicalIsUnique(hash: Hash, virtuals: int, r1: Ring, r2: Ring, live: set<Int32>)
    requires Canonical(hash, virtuals, r1, live) && Canonical(hash, virtuals, r2, live)
    ensures r1 == r2
  {
    hide Points;
    forall p | p in r1 ensures p in r2 && r1[p] == r2[p] {
      var i :| i in live && p in Points(hash, i, virtuals);
    }
    forall p | p in r2 ensures p in r1 {
      var i :| i in live && p in Points(hash, i, virtuals);
    }
  }

  lemma ApplyKeepsCanonical(hash: Hash, virtuals: int, ring: Ring, live: set<Int32>, op: Op, all: set<Int32>)
    requires Canonical(hash, virtuals, ring, live) && NoCollisions(hash, virtuals, all)
    requires live <= all && op.index in all
    ensures Canonical(hash, virtuals, Apply(hash, virtuals, ring, op), LiveAfter(live, op))
  {
    hide Points;
    var ring', live' := Apply(hash, virtuals, ring, op), LiveAfter(live, op);
    forall p | p in ring' ensures exists i :: i in live' && p in Points(hash, i, virtuals) {
      if p in ring {
        var i :| i in live && p in Points(hash, i, virtuals);
        assert op.Delete? ==> i != op.index;
        assert i in live';
      } else {
        assert op.index in live' && p in Points(hash, op.index, virtuals);
      }
    }
    forall i, p | i in live' && p in Points(hash, i, virtuals) ensures p in ring' && ring'[p] == Owner(i) {
      if p in ring {
        var k :| k in live && p in Points(hash, k, virtuals);
        assert k == i;
      }
    }
  }

  lemma {:induction false} RunKeepsCanonical(hash: Hash, virtuals: int, ring: Ring, live: set<Int32>, ops: seq<Op>,
                                             all: set<Int32>)
    requires Canonical(hash, virtuals, ring, live) && NoCollisions(hash, virtuals, all)
    requires live <= all && forall op :: op in ops ==> op.index in all
    ensures Canonical(hash, virtuals, Run(hash, virtuals, ring, ops), Live(live, ops))
    decreases |ops|
  {
    hide Canonical, NoCollisions, Apply;
    if ops != [] {
      ApplyKeepsCanonical(hash, virtuals, ring, live, ops[0], all);
      RunKeepsCanonical(hash, virtuals, Apply(hash, virtuals, ring, ops[0]), LiveAfter(live, ops[0]), ops[1..], all);
    }
  }

  function Machines(n: nat): set<Int32>
    requires n <= INT_MAX
  {
    if n == 0 then {} else Machines(n - 1) + {n - 1}
  }

  lemma {:induction false} InitialIsCanonical(hash: Hash, virtuals: int, n: nat)
    requires n <= INT_MAX && NoCollisions(hash, virtuals, Machines(n))
    ensures Canonical(hash, virtuals, Initial(hash, virtuals, map[], n), Machines(n))
  {
    hide Canonical, Points;
    if n == 0 {
      EmptyIsCanonical(hash, virtuals);
    } else {
      InitialIsCanonical(hash, virtuals, n - 1);
      var before := Initial(hash, virtuals, map[], n - 1);
      ApplyKeepsCanonical(hash, virtuals, before, Machines(n - 1), Add(n - 1), Machines(n));
    }
  }

  lemma EmptyIsCanonical(hash: Hash, virtuals: int)
    ensures Canonical(hash, virtuals, map[], {})
  {
  }

  /** From `Initialize` on, the ring is a function of the machines that are live, whatever happened before. */
  lemma HistoryDoesNotMatter(hash: Hash, virtuals: int, n: nat, ops1: seq<Op>, ops2: seq<Op>, all: set<Int32>)
    requires n <= INT_MAX && Machines(n) <= all && NoCollisions(hash, virtuals, all)
    requires forall op :: op in ops1 || op in ops2 ==> op.index in all
    requires Live(Machines(n), ops1) == Live(Machines(n), ops2)
    ensures var start := Initial(hash, virtuals, map[], n);
            Run(hash, virtuals, start, ops1) == Run(hash, virtuals, start, ops2)
  {
    hide Canonical, Points;
    var start := Initial(hash, virtuals, map[], n);
    InitialIsCanonical(hash, virtuals, n);
    RunKeepsCanonical(hash, virtuals, start, Machines(n), ops1, all);
    RunKeepsCanonical(hash, virtuals, start, Machines(n), ops2, all);
    CanonicalIsUnique(hash, virtuals, Run(hash, virtuals, start, ops1), Run(hash, virtuals, start, ops2),
                      Live(Machines(n), ops1));
  }

  /** Histories over `all`, from an empty ring, that end with the same machines end with the same ring. */
  ghost predicate HistoryIndependent(hash: Hash, virtuals: int, all: set<Int32>) {
    forall ops1: seq<Op>, ops2: seq<Op> ::
      (forall op :: op in ops1 || op in ops2 ==> op.index in all) && Live({}, ops1) == Live({}, ops2)
      ==> Run(hash, virtuals, map[], ops1) == Run(hash, virtuals, map[], ops2)
  }

  /** The absence of collisions between machines is exactly what it takes. */
  lemma HistoryIndependentIff(hash: Hash, virtuals: int, all: set<Int32>)
    ensures HistoryIndependent(hash, virtuals, all) <==> NoCollisions(hash, virtuals, all)
  {
    hide NoCollisions, HistoryIndependent;
    if NoCollisions(hash, virtuals, all) {
      NoCollisionsSuffice(hash, virtuals, all);
    } else {
      CollisionsMatter(hash, virtuals, all);
    }
  }

  lemma NoCollisionsSuffice(hash: Hash, virtuals: int, all: set<Int32>)
    requires NoCollisions(hash, virtuals, all)
    ensures HistoryIndependent(hash, virtuals, all)
  {
    hide NoCollisions, Run, Live;
    forall ops1: seq<Op>, ops2: seq<Op>
      | (forall op :: op in ops1 || op in ops2 ==> op.index in all) && Live({}, ops1) == Live({}, ops2)
      ensures Run(hash, virtuals, map[], ops1) == Run(hash, virtuals, map[], ops2)
    {
      HistoryDoesNotMatter(hash, virtuals, 0, ops1, ops2, all);
    }
  }

  lemma CollisionsMatter(hash: Hash, virtuals: int, all: set<Int32>)
    requires !NoCollisions(hash, virtuals, all)
    ensures !HistoryIndependent(hash, virtuals, all)
  {
    hide Points, Run, Live;
    var a, b :| a in all && b in all && a != b && !(Points(hash, a, virtuals) !! Points(hash, b, virtuals));
    OrderMatters(hash, virtuals, a, b);
    assert forall op :: op in [Add(a), Add(b)] || op in [Add(b), Add(a)] ==> op.index in all;
  }

  /** Two machines that collide: the first one added keeps the point. */
  lemma OrderMatters(hash: Hash, virtuals: int, a: Int32, b: Int32)
    requires a != b && !(Points(hash, a, virtuals) !! Points(hash, b, virtuals))
    ensures Live({}, [Add(a), Add(b)]) == Live({}, [Add(b), Add(a)])
    ensures Run(hash, virtuals, map[], [Add(a), Add(b)]) != Run(hash, virtuals, map[], [Add(b), Add(a)])
  {
    hide Points;
    var p :| p in Points(hash, a, virtuals) && p in Points(hash, b, virtuals);
    TwoAdds(hash, virtuals, a, b);
    TwoAdds(hash, virtuals, b, a);
    assert Run(hash, virtuals, map[], [Add(a), Add(b)])[p] == Owner(a);
    assert Run(hash, virtuals, map[], [Add(b), Add(a)])[p] == Owner(b);
  }

  lemma TwoAdds(hash: Hash, virtuals: int, a: Int32, b: Int32)
    ensures Live({}, [Add(a), Add(b)]) == {a, b}
    ensures Run(hash, virtuals, map[], [Add(a), Add(b)])
            == Added(Added(map[], Points(hash, a, virtuals), Owner(a)), Points(hash, b, virtuals), Owner(b))
  {
    hide Points, Added;
    var ops := [Add(a), Add(b)];
    assert ops[1..] == [Add(b)] && [Add(b)][1..] == [];
    assert Live({}, ops) == Live({} + {a}, [Add(b)]) == Live({} + {a} + {b}, []);
    var one := Added(map[], Points(hash, a, virtuals), Owner(a));
    var two := Added(one, Points(hash, b, virtuals), Owner(b));
    assert Run(hash, virtuals, one, [Add(b)]) == Run(hash, virtuals, two, []) == two;
  }

  lemma OwnerInjective(a: Int32, b: Int32)
    requires Owner(a) == Owner(b)
    ensures a == b
  {
  }

  lemma {:induction false} LiveWithin(live: set<Int32>, ops: seq<Op>, all: set<Int32>)
    requires live <= all && forall op :: op in ops ==> op.index in all
    ensures Live(live, ops) <= all
    decreases |ops|
  {
    if ops != [] {
      LiveWithin(LiveAfter(live, ops[0]), ops[1..], all);
    }
  }

  /** The points of one machine in such a ring are those it owns there. */
  lemma OwnPointsOnly(hash: Hash, virtuals: int, ring: Ring, live: set<Int32>, all: set<Int32>, i: Int32, q: Point)
    requires Canonical(hash, virtuals, ring, live) && NoCollisions(hash, virtuals, all) && live <= all && i in all
    requires q in ring
    ensures q in Points(hash, i, virtuals) <==> ring[q] == Owner(i)
  {
    hide Points;
    var k :| k in live && q in Points(hash, k, virtuals);
    if ring[q] == Owner(i) {
      OwnerInjective(k, i);
    }
  }

  /** Minimal disruption of every ring that can arise: after any history from `Initialize` on, without collisions,
      deleting a machine moves the keys it served and no others, each to the next surviving point. */
  lemma DeleteDisturbsMinimally(hash: Hash, virtuals: int, n: nat, ops: seq<Op>, i: Int32, all: set<Int32>, p: Point)
    requires n <= INT_MAX && Machines(n) <= all && NoCollisions(hash, virtuals, all)
    requires (forall op :: op in ops ==> op.index in all) && i in all
    requires Run(hash, virtuals, Initial(hash, virtuals, map[], n), ops + [Delete(i)]) != map[]
    ensures var start := Initial(hash, virtuals, map[], n);
            var ring, ring' := Run(hash, virtuals, start, ops), Run(hash, virtuals, start, ops + [Delete(i)]);
            && ring != map[]
            && (Server(ring, p) != Owner(i) ==>
                  Target(ring', p) == Target(ring, p) && Server(ring', p) == Server(ring, p))
            && (Server(ring, p) == Owner(i) ==> Target(ring', p) == Target(ring', Target(ring, p)))
            && Server(ring', p) != Owner(i)
  {
    hide Canonical, Points, Initial, Run, Target, Machines;
    var start := Initial(hash, virtuals, map[], n);
    var ring, points := Run(hash, virtuals, start, ops), Points(hash, i, virtuals);
    InitialIsCanonical(hash, virtuals, n);
    hide NoCollisions;
    RunKeepsCanonical(hash, virtuals, start, Machines(n), ops, all);
    LiveWithin(Machines(n), ops, all);
    RunThen(hash, virtuals, start, ops, Delete(i));
    DeleteSendsOn(ring, points, p);
    var live, t' := Live(Machines(n), ops), Target(Deleted(ring, points), p);
    OwnPointsOnly(hash, virtuals, ring, live, all, i, Target(ring, p));
    OwnPointsOnly(hash, virtuals, ring, live, all, i, t');
  }

  lemma {:induction false} RunThen(hash: Hash, virtuals: int, ring: Ring, ops: seq<Op>, op: Op)
    ensures Run(hash, virtuals, ring, ops + [op]) == Apply(hash, virtuals, Run(hash, virtuals, ring, ops), op)
    decreases |ops|
  {
    hide Apply;
    if ops == [] {
      assert ([] + [op])[1..] == [];
    } else {
      assert (ops + [op])[1..] == ops[1..] + [op];
      RunThen(hash, virtuals, Apply(hash, virtuals, ring, ops[0]), ops[1..], op);
    }
  }

  /** Adding a machine and deleting it again is the identity exactly when none of its points was taken. */
  lemma AddDeleteIdentityIff(ring: Ring, points: set<Point>, owner: nat)
    ensures Deleted(Added(ring, points, owner), points) == ring <==> points !! ring.Keys
  {
    var ring' := Deleted(Added(ring, points, owner), points);
    assert ring'.Keys == ring.Keys - points;
    assert points !! ring.Keys <==> ring'.Keys == ring.Keys by {
      forall p | p in points && p in ring ensures p !in ring'.Keys {}
    }
  }

  /** A hash that separates the keys of the virtual nodes of `all` makes no collisions. */
  lemma SeparatingHash(hash: Hash, virtuals: int, all: set<Int32>)
    requires forall i, j, k, l ::
      (i in all && k in all && 0 <= j < virtuals && 0 <= l < virtuals && At(hash, i, j) == At(hash, k, l))
      ==> NodeKey(i, j) == NodeKey(k, l)
    ensures NoCollisions(hash, virtuals, all)
  {
    forall a, b, p | a in all && b in all && a != b && p in Points(hash, a, virtuals) && p in Points(hash, b, virtuals)
      ensures false
    {
      var j :| 0 <= j < virtuals && p == At(hash, a, j);
      var l :| 0 <= l < virtuals && p == At(hash, b, l);
      NodeKeyInjective(a, j, b, l);
    }
  }
}
