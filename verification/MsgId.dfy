/** The per-thread decimal message ids of netrpc/common/msg_id_util.cc. */
module MsgIds {
  import opened Bytes
  import opened Numerals

  const LENGTH := 20

  predicate AllNines(s: string) {
    forall i :: 0 <= i < |s| ==> s[i] == '9'
  }

  function Nines(n: nat): (s: string)
    ensures |s| == n && AllNines(s)
  {
    seq(n, _ => '9')
  }

  function PowerOfTen(n: nat): nat {
    if n == 0 then 1 else 10 * PowerOfTen(n - 1)
  }

  /** The string after `s`, from the right: nines turn to zeros up to the last digit that is not one. */
  function Increment(s: string): (r: string)
    requires AllDigits(s) && !AllNines(s)
    ensures |r| == |s|
  {
    var n := |s| - 1;
    if s[n] == '9' then Increment(s[..n]) + "0" else s[..n] + [(s[n] as int + 1) as char]
  }

  /** Incrementing keeps the length, stays decimal and adds exactly one. */
  lemma {:induction false} IncrementAddsOne(s: string)
    requires AllDigits(s) && !AllNines(s)
    ensures AllDigits(Increment(s)) && Number(Increment(s)) == Number(s) + 1
  {
    var n := |s| - 1;
    assert IsDigit(s[n]);
    if s[n] == '9' {
      NinesInFront(s, n);
      IncrementAddsOne(s[..n]);
      NumberGrows(Increment(s[..n]), '0');
    } else {
      NumberGrows(s[..n], (s[n] as int + 1) as char);
    }
  }

  lemma NinesInFront(s: string, n: nat)
    requires AllDigits(s) && !AllNines(s) && |s| == n + 1 && s[n] == '9'
    ensures AllDigits(s[..n]) && !AllNines(s[..n])
  {
    assert AllNines(s[..n]) ==> forall i :: 0 <= i < n ==> s[i] == s[..n][i] == '9';
  }

  lemma NumberGrows(s: string, c: char)
    requires AllDigits(s) && IsDigit(c)
    ensures AllDigits(s + [c]) && Number(s + [c]) == Number(s) * 10 + DigitValue(c)
  {
    assert (s + [c])[..|s|] == s;
  }

  /** A digit string lies below the power of ten of its length, and is all nines exactly at the top. */
  lemma {:induction false} NumberRange(s: string)
    requires AllDigits(s)
    ensures 0 <= Number(s) < PowerOfTen(|s|)
    ensures AllNines(s) <==> Number(s) == PowerOfTen(|s|) - 1
  {
    if s != "" {
      var n := |s| - 1;
      assert IsDigit(s[n]);
      NumberRange(s[..n]);
      assert AllNines(s) <==> AllNines(s[..n]) && s[n] == '9';
    }
  }

  /** The two thread-local strings. */
  datatype Ids = Ids(current: string, max: string)

  datatype Outcome = Id(id: string) | ReadError | Undefined

  /** Twenty random octets as digits. */
  function Seeded(random: seq<Byte>): (s: string)
    ensures |s| == |random| && AllDigits(s)
    ensures forall i :: 0 <= i < |s| ==> DigitValue(s[i]) == random[i] % 10
  {
    seq(|random|, i requires 0 <= i < |random| => (random[i] as int % 10 + '0' as int) as char)
  }

  predicate Reseeds(t: Ids) {
    t.current == "" || t.current == t.max
  }

  /** One call of `GenMsgID`: `random` is what the read of /dev/urandom delivers, should one be made; on a string
      of nines that is not `max` the index underflows and the original reads outside the string. */
  function Gen(t: Ids, random: seq<Byte>): (Outcome, Ids)
    requires AllDigits(t.current)
  {
    if Reseeds(t) then
      if |random| != LENGTH then (ReadError, t)
      else (Id(Seeded(random)), Ids(Seeded(random), t.max + Nines(LENGTH)))
    else if AllNines(t.current) then (Undefined, t)
    else (Id(Increment(t.current)), t.(current := Increment(t.current)))
  }

  class MsgIDUtil {
    var current: string
    var max: string

    function View(): Ids
      reads this
    {
      Ids(current, max)
    }

    constructor ()
      ensures View() == Ids("", "")
    {
      current, max := "", "";
    }

    method GenMsgID(random: seq<Byte>) returns (outcome: Outcome)
      requires AllDigits(current)
      modifies this
      ensures AllDigits(current)
      ensures (outcome, View()) == Gen(old(View()), random)
    {
      if current == "" || current == max {
        if |random| != LENGTH {
          return ReadError;
        }
        Seed(random);
        return Id(current);
      }
      var i := LastNotNine();
      if i < 0 {
        return Undefined;
      }
      Carry(current, i);
      IncrementAddsOne(current);
      RaiseAt(i);
      outcome := Id(current);
    }

    /** The loop from the right over the nines; -1 when there is nothing else. */
    method LastNotNine() returns (i: int)
      ensures -1 <= i < |current| && (i == -1 <==> AllNines(current))
      ensures i >= 0 ==> current[i] != '9' && AllNines(current[i + 1..])
    {
      i := |current| - 1;
      while i >= 0 && current[i] == '9'
        invariant -1 <= i < |current|
        invariant AllNines(current[i + 1..])
      {
        assert current[i..] == [current[i]] + current[i + 1..];
        i := i - 1;
      }
      assert current[0..] == current;
    }

    /** One digit raised, zeros written behind it. */
    method RaiseAt(i: nat)
      requires i < |current| && IsDigit(current[i])
      modifies this`current
      ensures current == old(current)[..i] + [(old(current)[i] as int + 1) as char] + ZeroDigits(|old(current)| - i - 1)
    {
      ghost var s := current;
      current := current[i := (current[i] as int + 1) as char];
      ghost var front := s[..i] + [(s[i] as int + 1) as char];
      var j := i + 1;
      assert current == front + ZeroDigits(0) + s[j..];
      while j < |current|
        invariant i + 1 <= j <= |current| == |s|
        invariant current == front + ZeroDigits(j - i - 1) + s[j..]
      {
        assert current[j := '0'] == front + (ZeroDigits(j - i - 1) + "0") + s[j + 1..];
        assert ZeroDigits(j - i - 1) + "0" == ZeroDigits(j - i);
        current := current[j := '0'];
        j := j + 1;
      }
      assert s[j..] == "";
    }

    /** The loop that turns random octets into digits and adds a nine to `max` for each. */
    method Seed(random: seq<Byte>)
      requires |random| == LENGTH
      modifies this
      ensures current == Seeded(random) && max == old(max) + Nines(LENGTH)
    {
      var res := "";
      for i := 0 to LENGTH
        invariant res == Seeded(random[..i]) && max == old(max) + Nines(i)
      {
        res := res + [(random[i] as int % 10 + '0' as int) as char];
        max := max + "9";
        assert max == old(max) + (Nines(i) + "9");
        assert Nines(i) + "9" == Nines(i + 1);
      }
      assert random[..LENGTH] == random;
      current := res;
    }
  }

  function ZeroDigits(n: nat): string {
    seq(n, _ => '0')
  }

  /** What the carry loop finds: one digit raised, zeros for the nines behind it. */
  lemma {:induction false} Carry(s: string, i: nat)
    requires AllDigits(s) && i < |s| && s[i] != '9' && AllNines(s[i + 1..])
    ensures !AllNines(s) && Increment(s) == s[..i] + [(s[i] as int + 1) as char] + ZeroDigits(|s| - i - 1)
    decreases |s|
  {
    var n := |s| - 1;
    if i < n {
      assert s[n] == s[i + 1..][n - i - 1];
      var t := s[..n];
      assert t[i + 1..] == s[i + 1..][..n - i - 1];
      Carry(t, i);
      assert ZeroDigits(n - i - 1) + "0" == ZeroDigits(n - i);
      assert t[..i] == s[..i];
    }
  }

  // Runs of one thread.

  predicate Reachable(t: Ids) {
    && AllDigits(t.current) && AllNines(t.max) && |t.max| % LENGTH == 0
    && (if t.max == "" then t.current == "" else |t.current| == LENGTH)
  }

  lemma GenKeepsReachable(t: Ids, random: seq<Byte>)
    requires Reachable(t)
    ensures Reachable(Gen(t, random).1)
  {
    if !Reseeds(t) && !AllNines(t.current) {
      IncrementAddsOne(t.current);
    }
  }

  /** A call is undefined exactly at twenty nines once there has been more than one seeding: only the first
      time does the string of nines equal `max`. */
  lemma UndefinedIff(t: Ids, random: seq<Byte>)
    requires Reachable(t)
    ensures Gen(t, random).0.Undefined? <==> t.current == Nines(LENGTH) && |t.max| > LENGTH
  {
    assert AllNines(t.current) && |t.current| == LENGTH ==> t.current == Nines(LENGTH);
    assert |t.max| == LENGTH ==> t.max == Nines(LENGTH);
  }

  /** The ids of the next `|randoms|` calls. */
  function IdsOf(t: Ids, randoms: seq<seq<Byte>>): seq<Outcome>
    requires AllDigits(t.current)
    decreases |randoms|
  {
    if randoms == [] then []
    else
      var g := Gen(t, randoms[0]);
      if AllDigits(g.1.current) then [g.0] + IdsOf(g.1, randoms[1..]) else []
  }

  /** A thread comes to that: when the random source delivers nothing but nines, its first three calls are the
      first id, a second seeding, and an index below the string. */
  lemma ThirdCallUndefined()
    ensures var nines := seq(LENGTH, _ => 9);
            IdsOf(Ids("", ""), [nines, nines, []]) == [Id(Nines(LENGTH)), Id(Nines(LENGTH)), Undefined]
  {
    var nines: seq<Byte> := seq(LENGTH, _ => 9);
    assert Seeded(nines) == Nines(LENGTH) == "" + Nines(LENGTH);
    var once, twice := Ids(Nines(LENGTH), Nines(LENGTH)), Ids(Nines(LENGTH), Nines(LENGTH) + Nines(LENGTH));
    NextId(Ids("", ""), nines, [nines] + ([[]] + []), Id(Nines(LENGTH)), once);
    NextId(once, nines, [[]] + [], Id(Nines(LENGTH)), twice);
    NextId(twice, [], [], Undefined, twice);
    assert [nines] + ([nines] + ([[]] + [])) == [nines, nines, []];
  }

  lemma NextId(t: Ids, random: seq<Byte>, randoms: seq<seq<Byte>>, outcome: Outcome, t': Ids)
    requires AllDigits(t.current) && AllDigits(t'.current) && Gen(t, random) == (outcome, t')
    ensures IdsOf(t, [random] + randoms) == [outcome] + IdsOf(t', randoms)
  {
    assert ([random] + randoms)[1..] == randoms;
  }

  /** Until the count comes to the top, call after call counts up by one from the last id, whatever the random source
      delivers; so the ids are strictly increasing and no two are equal. */
  lemma {:induction false} CountsUp(t: Ids, randoms: seq<seq<Byte>>, k: nat)
    requires Reachable(t) && t.current != "" && Number(t.current) + |randoms| < PowerOfTen(LENGTH) && k < |randoms|
    ensures var ids := IdsOf(t, randoms);
            && |ids| == |randoms| && ids[k].Id? && |ids[k].id| == LENGTH && AllDigits(ids[k].id)
            && Number(ids[k].id) == Number(t.current) + k + 1
    decreases |randoms|
  {
    hide PowerOfTen, Number, Increment;
    NumberRange(t.current);
    NotYetTop(t);
    IncrementAddsOne(t.current);
    var next := Gen(t, randoms[0]).1;
    GenKeepsReachable(t, randoms[0]);
    if k > 0 {
      CountsUp(next, randoms[1..], k - 1);
    } else if |randoms| > 1 {
      CountsUp(next, randoms[1..], 0);
    }
  }

  lemma NotYetTop(t: Ids)
    requires Reachable(t) && t.current != "" && Number(t.current) + 1 < PowerOfTen(LENGTH)
    ensures !Reseeds(t) && !AllNines(t.current)
  {
    hide PowerOfTen, Number;
    NumberRange(t.current);
  }

  /** Two ids counted up from the same seed differ, and the later one is greater. */
  lemma LaterIsGreater(t: Ids, randoms: seq<seq<Byte>>, i: nat, j: nat)
    requires Reachable(t) && t.current != "" && Number(t.current) + |randoms| < PowerOfTen(LENGTH) && i < j < |randoms|
    ensures var ids := IdsOf(t, randoms);
            |ids| == |randoms| && ids[i].Id? && ids[j].Id?
            && Number(t.current) < Number(ids[i].id) < Number(ids[j].id) && ids[i].id != ids[j].id
  {
    hide PowerOfTen, Number;
    CountsUp(t, randoms, i);
    CountsUp(t, randoms, j);
  }
}
