// Monkey in the Middle: monkeys inspect the items they hold, one monkey
// after the other, change each item's worry level by their operation and
// throw it to one of two other monkeys depending on a divisibility test.
// The level of monkey business is the product of the two largest numbers
// of inspections.

module MonkeyInTheMiddle {

  import opened Modular

  // The monkeys.

  datatype Operation = Add(n: nat) | Multiply(n: nat) | Square

  datatype DivisibleTest = DivisibleTest(divisor: nat, success: nat, failure: nat)

  /** A monkey. `items` is a stack: the last item is inspected first. */
  datatype Monkey = Monkey(id: nat, items: seq<nat>, operation: Operation, test: DivisibleTest, inspectCount: nat)

  /** `Operation::apply`: the new worry level. */
  function Apply(op: Operation, level: nat): nat {
    match op
    case Add(n) => level + n
    case Multiply(n) => level * n
    case Square => level * level
  }

  /** The operations respect congruence: applying one to congruent levels
      gives congruent levels. */
  lemma ApplyCongruent(op: Operation, x: nat, y: nat, d: nat)
    requires d > 0 && x % d == y % d
    ensures Apply(op, x) % d == Apply(op, y) % d
  {
    match op
    case Add(n) => ModAdd(x, y, n, d);
    case Multiply(n) => ModMul(x, y, n, d);
    case Square =>
      ModMul(x, y, x, d);
      ModMul(x, y, y, d);
      assert x * y == y * x;
  }

  /** `DivisibleTest::test`: the monkey the item is thrown to. The divisor
      is never zero, or `%` would panic. */
  function Test(t: DivisibleTest, num: nat): nat
    requires t.divisor > 0
  {
    if num % t.divisor == 0 then t.success else t.failure
  }

  /** The test only looks at the remainder modulo its divisor, so any
      multiple of the divisor may be taken off the level first. */
  lemma TestCongruent(t: DivisibleTest, x: nat, y: nat, big: nat)
    requires t.divisor > 0 && big > 0 && big % t.divisor == 0 && x % big == y % big
    ensures Test(t, x) == Test(t, y)
  {
    ModDivisor(x, y, big, t.divisor);
  }

  /** What never changes about the monkeys: their ids, operations and
      tests, position by position. */
  type Static = (nat, Operation, DivisibleTest)

  function Statics(ms: seq<Monkey>): (st: seq<Static>)
    ensures |st| == |ms|
  {
    seq(|ms|, k requires 0 <= k < |ms| => (ms[k].id, ms[k].operation, ms[k].test))
  }

  /** Tests that `play_turn` can run: no divisor is zero, every monkey
      throws to a monkey that exists, and never to itself (a monkey
      throwing to itself would pop the item it has just pushed, for
      ever). */
  predicate Sound(st: seq<Static>) {
    forall i :: 0 <= i < |st| ==>
      st[i].2.divisor > 0 &&
      st[i].2.success < |st| && st[i].2.failure < |st| &&
      st[i].2.success != i && st[i].2.failure != i
  }

  predicate Valid(ms: seq<Monkey>) {
    Sound(Statics(ms))
  }

  /** What `Valid` says about monkey `i`. */
  lemma ValidAt(ms: seq<Monkey>, i: nat)
    requires Valid(ms) && i < |ms|
    ensures ms[i].test.divisor > 0 && ms[i].test.success < |ms| && ms[i].test.failure < |ms|
    ensures ms[i].test.success != i && ms[i].test.failure != i
  {
    assert Statics(ms)[i].2 == ms[i].test;
  }

  /** `x` reduced modulo `big`; `big == 0` stands for no reduction at
      all, the puzzle's own rule. */
  function Reduce(x: nat, big: nat): nat {
    if big == 0 then x else x % big
  }

  /** The new worry level of an inspected item, as `play_turn` computes
      it: the level is reduced modulo `big` (`big == 0`: not reduced, the
      puzzle's own rule), the operation is applied, and with relief
      (`boring`, part 1) the result is divided by 3. */
  function Inspect(op: Operation, x: nat, big: nat, boring: bool): nat {
    var adjusted := Apply(op, Reduce(x, big));
    if boring then adjusted / 3 else adjusted
  }

  /** With relief the reduction does not commute with the division by 3:
      monkeys dividing by 5, 7 and 1 have the product 35; an item of level
      36 at a monkey whose operation is `* 1` and who throws to monkey 1 on
      a multiple of 5 and to monkey 2 otherwise has level 12 by the
      puzzle's rule and goes to monkey 2, but reduced first it has level 0
      and goes to monkey 1. */
  lemma ReductionBeforeRelief()
    ensures Inspect(Multiply(1), 36, 35, true) == 0
    ensures Inspect(Multiply(1), 36, 0, true) == 12
    ensures Test(DivisibleTest(5, 1, 2), Inspect(Multiply(1), 36, 35, true)) == 1
    ensures Test(DivisibleTest(5, 1, 2), Inspect(Multiply(1), 36, 0, true)) == 2
  {
  }

  /** Without relief the reduced level is congruent to the unreduced one
      modulo the product. */
  lemma InspectReduced(op: Operation, x: nat, y: nat, big: nat)
    requires big > 0 && x % big == y % big
    ensures Inspect(op, x, big, false) % big == Inspect(op, y, 0, false) % big
  {
    assert (x % big) % big == x % big by {
      ModUnique(x % big, 0, x % big, big);
    }
    ApplyCongruent(op, x % big, y, big);
  }

  /** The monkeys after `r` keep their ids, operations and tests. */
  predicate Keeps(ms: seq<Monkey>, r: seq<Monkey>) {
    Statics(r) == Statics(ms)
  }

  /** The monkey after popping its last item and counting the
      inspection. */
  function Pop(m: Monkey): Monkey
    requires |m.items| > 0
  {
    m.(items := m.items[..|m.items| - 1], inspectCount := m.inspectCount + 1)
  }

  /** The monkey after an item is pushed onto its stack. */
  function Push(m: Monkey, w: nat): Monkey {
    m.(items := m.items + [w])
  }

  /** The level of the item a monkey inspects next. */
  function Level(m: Monkey, big: nat, boring: bool): nat
    requires |m.items| > 0
  {
    Inspect(m.operation, m.items[|m.items| - 1], big, boring)
  }

  /** One pass of the `while let` loop: monkey `i` pops its last item,
      inspects it and pushes it onto the stack of the monkey its test
      names. */
  function Throw(ms: seq<Monkey>, i: nat, big: nat, boring: bool): (r: seq<Monkey>)
    requires Valid(ms) && i < |ms| && |ms[i].items| > 0
    ensures Keeps(ms, r) && Valid(r)
    ensures |r[i].items| == |ms[i].items| - 1
  {
    ValidAt(ms, i);
    var w := Level(ms[i], big, boring);
    var o := Test(ms[i].test, w);
    var ms1 := ms[i := Pop(ms[i])];
    ms1[o := Push(ms1[o], w)]
  }

  /** The turn of monkey `i`: it throws items until it has none left. */
  function Turn(ms: seq<Monkey>, i: nat, big: nat, boring: bool): (r: seq<Monkey>)
    requires Valid(ms) && i < |ms|
    ensures Keeps(ms, r) && Valid(r)
    decreases |ms[i].items|
  {
    if |ms[i].items| == 0 then ms else Turn(Throw(ms, i, big, boring), i, big, boring)
  }

  /** The turns of monkeys `i`, `i + 1`, ... in order. */
  function RoundFrom(ms: seq<Monkey>, i: nat, big: nat, boring: bool): (r: seq<Monkey>)
    requires Valid(ms) && i <= |ms|
    ensures Keeps(ms, r) && Valid(r)
    decreases |ms| - i
  {
    if i == |ms| then ms else RoundFrom(Turn(ms, i, big, boring), i + 1, big, boring)
  }

  /** A round: every monkey takes its turn, in order of position. */
  function Round(ms: seq<Monkey>, big: nat, boring: bool): (r: seq<Monkey>)
    requires Valid(ms)
    ensures Keeps(ms, r) && Valid(r)
  {
    RoundFrom(ms, 0, big, boring)
  }

  function Rounds(ms: seq<Monkey>, n: nat, big: nat, boring: bool): (r: seq<Monkey>)
    requires Valid(ms)
    ensures Keeps(ms, r) && Valid(r)
  {
    if n == 0 then ms else Round(Rounds(ms, n - 1, big, boring), big, boring)
  }

  // What a turn does.

  /** The items that a monkey with operation `op` and test `t`, holding
      `items`, throws to monkey `j`, in the order they arrive there. */
  function ThrownTo(items: seq<nat>, op: Operation, t: DivisibleTest, j: nat, big: nat, boring: bool): seq<nat>
    requires t.divisor > 0
  {
    if items == [] then []
    else
      var w := Inspect(op, items[|items| - 1], big, boring);
      (if Test(t, w) == j then [w] else []) + ThrownTo(items[..|items| - 1], op, t, j, big, boring)
  }

  /** A throw: the thrower has popped its item and counted it; the monkey
      its test names has the new level pushed; nobody else changes. */
  lemma ThrowContents(ms: seq<Monkey>, i: nat, big: nat, boring: bool)
    requires Valid(ms) && i < |ms| && |ms[i].items| > 0
    ensures ms[i].test.divisor > 0
    ensures var r, w := Throw(ms, i, big, boring), Level(ms[i], big, boring);
      r[i] == Pop(ms[i]) &&
      forall j :: 0 <= j < |ms| && j != i ==>
        r[j] == if j == Test(ms[i].test, w) then Push(ms[j], w) else ms[j]
  {
    ValidAt(ms, i);
  }

  /** After its turn a monkey holds nothing and has inspected every item
      it held. */
  lemma {:induction false} TurnEmpties(ms: seq<Monkey>, i: nat, big: nat, boring: bool)
    requires Valid(ms) && i < |ms|
    ensures var r := Turn(ms, i, big, boring);
      r[i].items == [] && r[i].inspectCount == ms[i].inspectCount + |ms[i].items|
    decreases |ms[i].items|
  {
    if |ms[i].items| > 0 {
      ThrowContents(ms, i, big, boring);
      TurnEmpties(Throw(ms, i, big, boring), i, big, boring);
    }
  }

  /** During the turn of monkey `i`, monkey `j` receives the items thrown
      to it, appended in order, and inspects nothing. */
  lemma {:induction false} TurnDelivers(ms: seq<Monkey>, i: nat, j: nat, big: nat, boring: bool)
    requires Valid(ms) && i < |ms| && j < |ms| && j != i && ms[i].test.divisor > 0
    ensures var r := Turn(ms, i, big, boring);
      r[j].inspectCount == ms[j].inspectCount &&
      r[j].items == ms[j].items + ThrownTo(ms[i].items, ms[i].operation, ms[i].test, j, big, boring)
    decreases |ms[i].items|
  {
    if |ms[i].items| > 0 {
      var m := ms[i];
      var ms' := Throw(ms, i, big, boring);
      var w := Level(m, big, boring);
      var rest := m.items[..|m.items| - 1];
      var sent := if Test(m.test, w) == j then [w] else [];
      assert ms'[i].items == rest && ms'[i].operation == m.operation && ms'[i].test == m.test &&
        ms'[j].items == ms[j].items + sent && ms'[j].inspectCount == ms[j].inspectCount by {
        ThrowContents(ms, i, big, boring);
      }
      TurnDelivers(ms', i, j, big, boring);
      var before, later := ms[j].items, ThrownTo(rest, m.operation, m.test, j, big, boring);
      assert ThrownTo(m.items, m.operation, m.test, j, big, boring) == sent + later;
      AppendAssoc(before, sent, later);
    }
  }

  lemma AppendAssoc(a: seq<nat>, b: seq<nat>, c: seq<nat>)
    ensures a + b + c == a + (b + c)
  {
  }

  /** What a turn does to every monkey. */
  lemma TurnContents(ms: seq<Monkey>, i: nat, big: nat, boring: bool)
    requires Valid(ms) && i < |ms| && ms[i].test.divisor > 0
    ensures var r := Turn(ms, i, big, boring);
      r[i].items == [] && r[i].inspectCount == ms[i].inspectCount + |ms[i].items| &&
      forall j :: 0 <= j < |ms| && j != i ==>
        r[j].inspectCount == ms[j].inspectCount &&
        r[j].items == ms[j].items + ThrownTo(ms[i].items, ms[i].operation, ms[i].test, j, big, boring)
  {
    TurnEmpties(ms, i, big, boring);
    forall j | 0 <= j < |ms| && j != i
      ensures Turn(ms, i, big, boring)[j].inspectCount == ms[j].inspectCount
      ensures Turn(ms, i, big, boring)[j].items
        == ms[j].items + ThrownTo(ms[i].items, ms[i].operation, ms[i].test, j, big, boring)
    {
      TurnDelivers(ms, i, j, big, boring);
    }
  }

  /** The number of items held by all monkeys together. */
  function TotalItems(ms: seq<Monkey>): nat {
    if ms == [] then 0 else TotalItems(ms[..|ms| - 1]) + |ms[|ms| - 1].items|
  }

  lemma {:induction false} TotalItemsUpdate(ms: seq<Monkey>, k: nat, m: Monkey)
    requires k < |ms|
    ensures TotalItems(ms[k := m]) + |ms[k].items| == TotalItems(ms) + |m.items|
  {
    if k < |ms| - 1 {
      assert ms[k := m][..|ms| - 1] == ms[..|ms| - 1][k := m];
      TotalItemsUpdate(ms[..|ms| - 1], k, m);
    } else {
      assert ms[k := m][..|ms| - 1] == ms[..|ms| - 1];
    }
  }

  /** A throw moves one item from one monkey to another. */
  lemma ThrowTotal(ms: seq<Monkey>, i: nat, big: nat, boring: bool)
    requires Valid(ms) && i < |ms| && |ms[i].items| > 0
    ensures TotalItems(Throw(ms, i, big, boring)) == TotalItems(ms)
  {
    ValidAt(ms, i);
    var w := Level(ms[i], big, boring);
    var o := Test(ms[i].test, w);
    var ms1 := ms[i := Pop(ms[i])];
    assert TotalItems(ms1) + 1 == TotalItems(ms) by {
      TotalItemsUpdate(ms, i, Pop(ms[i]));
    }
    assert TotalItems(ms1[o := Push(ms1[o], w)]) == TotalItems(ms1) + 1 by {
      TotalItemsUpdate(ms1, o, Push(ms1[o], w));
    }
  }

  lemma {:induction false} TurnTotal(ms: seq<Monkey>, i: nat, big: nat, boring: bool)
    requires Valid(ms) && i < |ms|
    ensures TotalItems(Turn(ms, i, big, boring)) == TotalItems(ms)
    decreases |ms[i].items|
  {
    if |ms[i].items| > 0 {
      ThrowTotal(ms, i, big, boring);
      TurnTotal(Throw(ms, i, big, boring), i, big, boring);
    }
  }

  lemma {:induction false} RoundFromTotal(ms: seq<Monkey>, i: nat, big: nat, boring: bool)
    requires Valid(ms) && i <= |ms|
    ensures TotalItems(RoundFrom(ms, i, big, boring)) == TotalItems(ms)
    decreases |ms| - i
  {
    if i < |ms| {
      TurnTotal(ms, i, big, boring);
      RoundFromTotal(Turn(ms, i, big, boring), i + 1, big, boring);
    }
  }

  /** No item is ever lost or duplicated. */
  lemma {:induction false} RoundsTotal(ms: seq<Monkey>, n: nat, big: nat, boring: bool)
    requires Valid(ms)
    ensures TotalItems(Rounds(ms, n, big, boring)) == TotalItems(ms)
  {
    if n > 0 {
      RoundsTotal(ms, n - 1, big, boring);
      RoundFromTotal(Rounds(ms, n - 1, big, boring), 0, big, boring);
    }
  }

  // The reduction modulo the product of the divisors.

  /** Item levels congruent modulo `big`, position by position. */
  predicate ItemsCongruent(xs: seq<nat>, ys: seq<nat>, big: nat)
    requires big > 0
  {
    |xs| == |ys| && forall t :: 0 <= t < |xs| ==> xs[t] % big == ys[t] % big
  }

  /** Two states of the same monkeys that agree on everything but the item
      levels, which are congruent modulo `big`. */
  predicate Congruent(a: seq<Monkey>, b: seq<Monkey>, big: nat)
    requires big > 0
  {
    Keeps(a, b) &&
    forall k :: 0 <= k < |a| ==>
      a[k].inspectCount == b[k].inspectCount && ItemsCongruent(a[k].items, b[k].items, big)
  }

  /** `big` is a multiple of every divisor. */
  predicate Divides(st: seq<Static>, big: nat) {
    forall k :: 0 <= k < |st| ==> st[k].2.divisor > 0 && big % st[k].2.divisor == 0
  }

  lemma ThrowCongruent(a: seq<Monkey>, b: seq<Monkey>, i: nat, big: nat)
    requires big > 0 && Valid(a) && Valid(b) && Divides(Statics(a), big) && Congruent(a, b, big)
    requires i < |a| && |a[i].items| > 0
    ensures Congruent(Throw(a, i, big, false), Throw(b, i, 0, false), big)
  {
    ValidAt(a, i);
    assert Statics(a)[i].2 == a[i].test;
    var ma, mb := a[i], b[i];
    var xa, xb := ma.items[|ma.items| - 1], mb.items[|mb.items| - 1];
    var wa, wb := Inspect(ma.operation, xa, big, false), Inspect(mb.operation, xb, 0, false);
    InspectReduced(ma.operation, xa, xb, big);
    TestCongruent(ma.test, wa, wb, big);
    var ra, rb := Throw(a, i, big, false), Throw(b, i, 0, false);
    forall k | 0 <= k < |a|
      ensures ra[k].inspectCount == rb[k].inspectCount && ItemsCongruent(ra[k].items, rb[k].items, big)
    {
    }
  }

  lemma {:induction false} TurnCongruent(a: seq<Monkey>, b: seq<Monkey>, i: nat, big: nat)
    requires big > 0 && Valid(a) && Valid(b) && Divides(Statics(a), big) && Congruent(a, b, big) && i < |a|
    ensures Congruent(Turn(a, i, big, false), Turn(b, i, 0, false), big)
    decreases |a[i].items|
  {
    if |a[i].items| > 0 {
      ThrowCongruent(a, b, i, big);
      TurnCongruent(Throw(a, i, big, false), Throw(b, i, 0, false), i, big);
    }
  }

  lemma {:induction false} RoundFromCongruent(a: seq<Monkey>, b: seq<Monkey>, i: nat, big: nat)
    requires big > 0 && Valid(a) && Valid(b) && Divides(Statics(a), big) && Congruent(a, b, big) && i <= |a|
    ensures Congruent(RoundFrom(a, i, big, false), RoundFrom(b, i, 0, false), big)
    decreases |a| - i
  {
    if i < |a| {
      TurnCongruent(a, b, i, big);
      RoundFromCongruent(Turn(a, i, big, false), Turn(b, i, 0, false), i + 1, big);
    }
  }

  /** Part 2's reduction is sound: after any number of rounds the reduced
      levels are congruent to the unreduced ones and every monkey has
      inspected exactly as many items. */
  lemma {:induction false} RoundsCongruent(ms: seq<Monkey>, n: nat, big: nat)
    requires big > 0 && Valid(ms) && Divides(Statics(ms), big)
    ensures Congruent(Rounds(ms, n, big, false), Rounds(ms, n, 0, false), big)
  {
    if n > 0 {
      RoundsCongruent(ms, n - 1, big);
      RoundFromCongruent(Rounds(ms, n - 1, big, false), Rounds(ms, n - 1, 0, false), 0, big);
    }
  }

  // Monkey business.

  function Counts(ms: seq<Monkey>): (c: seq<nat>)
    ensures |c| == |ms| && forall k :: 0 <= k < |ms| ==> c[k] == ms[k].inspectCount
  {
    seq(|ms|, k requires 0 <= k < |ms| => ms[k].inspectCount)
  }

  /** Positions `i` and `j` hold a largest and a second largest count. */
  predicate TopPair(c: seq<nat>, i: nat, j: nat) {
    i < |c| && j < |c| && i != j &&
    (forall k :: 0 <= k < |c| ==> c[k] <= c[i]) &&
    (forall k :: 0 <= k < |c| && k != i ==> c[k] <= c[j])
  }

  /** The positions of a largest and of a second largest count. */
  function TopTwo(c: seq<nat>): (r: (nat, nat))
    requires |c| >= 2
    ensures TopPair(c, r.0, r.1)
  {
    if |c| == 2 then
      if c[0] >= c[1] then (0, 1) else (1, 0)
    else
      var (i, j) := TopTwo(c[..|c| - 1]);
      var n := |c| - 1;
      if c[n] > c[i] then (n, i)
      else if c[n] > c[j] then (i, n)
      else (i, j)
  }

  /** The product of the (at most) two largest counts, as sorting and
      taking two from the end gives it; the empty product is 1. */
  function Business(c: seq<nat>): (r: nat)
    ensures |c| == 0 ==> r == 1
    ensures |c| == 1 ==> r == c[0]
    ensures |c| >= 2 ==> exists i: nat, j: nat :: TopPair(c, i, j) && r == c[i] * c[j]
  {
    if |c| == 0 then 1
    else if |c| == 1 then c[0]
    else
      var (i, j) := TopTwo(c);
      c[i] * c[j]
  }

  /** The product of the divisors. */
  function BigDivider(st: seq<Static>): (r: nat)
    requires forall k :: 0 <= k < |st| ==> st[k].2.divisor > 0
    ensures r > 0 && Divides(st, r)
  {
    if st == [] then 1
    else
      var p := BigDivider(st[..|st| - 1]);
      ProductDivides(st, p);
      p * st[|st| - 1].2.divisor
  }

  /** Multiplying by the last divisor keeps the product a multiple of
      the others and makes it one of the last. */
  lemma ProductDivides(st: seq<Static>, p: nat)
    requires |st| > 0 && p > 0 && st[|st| - 1].2.divisor > 0 && Divides(st[..|st| - 1], p)
    ensures Divides(st, p * st[|st| - 1].2.divisor)
  {
    var d := st[|st| - 1].2.divisor;
    forall k | 0 <= k < |st|
      ensures (p * d) % st[k].2.divisor == 0
    {
      if k < |st| - 1 {
        var e := st[..|st| - 1][k].2.divisor;
        assert p == (p / e) * e;
        assert p * d == ((p / e) * d) * e;
        ModShift((p / e) * d, 0, e);
      } else {
        ModShift(p, 0, d);
      }
    }
  }

  // The imperative turn.

  /** The `while let` loop of `play_turn` for monkey `i`. */
  method MonkeyTurn(v: array<Monkey>, i: nat, big: nat, boring: bool)
    requires Valid(v[..]) && i < v.Length
    modifies v
    ensures v[..] == Turn(old(v[..]), i, big, boring)
  {
    while |v[i].items| > 0
      invariant Valid(v[..])
      invariant Turn(v[..], i, big, boring) == Turn(old(v[..]), i, big, boring)
      decreases |v[i].items|
    {
      ThrowItem(v, i, big, boring);
    }
  }

  /** One pass of the `while let` loop: pop, inspect, test, count, push. */
  method ThrowItem(v: array<Monkey>, i: nat, big: nat, boring: bool)
    requires Valid(v[..]) && i < v.Length && |v[i].items| > 0
    modifies v
    ensures v[..] == Throw(old(v[..]), i, big, boring)
  {
    ghost var before := v[..];
    ValidAt(before, i);
    var m := v[i];
    var item := m.items[|m.items| - 1];
    var adjusted := Apply(m.operation, Reduce(item, big));
    if boring {
      adjusted := adjusted / 3;
    }
    assert adjusted == Level(m, big, boring);
    var owner := Test(m.test, adjusted);
    v[i] := m.(items := m.items[..|m.items| - 1], inspectCount := m.inspectCount + 1);
    ghost var popped := before[i := Pop(m)];
    assert v[..] == popped;
    v[owner] := v[owner].(items := v[owner].items + [adjusted]);
    assert v[..] == popped[owner := Push(popped[owner], adjusted)];
  }

  /** `play_turn`: every monkey, in order, takes its turn. The source
      always passes a positive product; `big == 0` (no reduction) is what
      the corrected program below passes for part 1. */
  method PlayTurn(v: array<Monkey>, big: nat, boring: bool)
    requires Valid(v[..])
    modifies v
    ensures v[..] == Round(old(v[..]), big, boring)
  {
    for i := 0 to v.Length
      invariant Valid(v[..])
      invariant RoundFrom(v[..], i, big, boring) == Round(old(v[..]), big, boring)
    {
      MonkeyTurn(v, i, big, boring);
    }
  }

  /** `play_monkey_business`: `turns` rounds, with the levels reduced
      modulo the product of the divisors in both parts, then the product
      of the two largest counts. Without relief (part 2) this is the
      puzzle's answer with unreduced levels; with relief (part 1) the
      reduction before the division by 3 may change it (see
      `ReductionBeforeRelief`). */
  method PlayMonkeyBusiness(v: array<Monkey>, turns: nat, boring: bool) returns (r: nat)
    requires Valid(v[..])
    modifies v
    ensures v[..] == Rounds(old(v[..]), turns, BigDivider(Statics(old(v[..]))), boring)
    ensures r == Business(Counts(v[..]))
    ensures !boring ==> r == Business(Counts(Rounds(old(v[..]), turns, 0, false)))
  {
    ghost var start := v[..];
    var big := BigDivider(Statics(v[..]));
    for k := 0 to turns
      invariant v[..] == Rounds(start, k, big, boring)
    {
      PlayTurn(v, big, boring);
    }
    r := Business(Counts(v[..]));
    if !boring {
      RoundsCongruent(start, turns, big);
      assert Counts(v[..]) == Counts(Rounds(start, turns, 0, false));
    }
  }

  /** The corrected program: the levels are reduced only without relief,
      where the reduction is sound, so both parts give the puzzle's answer
      with unreduced levels. */
  method PlayMonkeyBusinessCorrected(v: array<Monkey>, turns: nat, boring: bool) returns (r: nat)
    requires Valid(v[..])
    modifies v
    ensures r == Business(Counts(Rounds(old(v[..]), turns, 0, boring)))
  {
    ghost var start := v[..];
    var big := if boring then 0 else BigDivider(Statics(v[..]));
    for k := 0 to turns
      invariant v[..] == Rounds(start, k, big, boring)
    {
      PlayTurn(v, big, boring);
    }
    r := Business(Counts(v[..]));
    if !boring {
      RoundsCongruent(start, turns, big);
      assert Counts(v[..]) == Counts(Rounds(start, turns, 0, false));
    }
  }
}
