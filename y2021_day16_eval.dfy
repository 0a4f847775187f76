/** Packet decoder (2021 day 16), second half: what is computed from a
    decoded packet tree — the sum of all version numbers and the value of
    the expression the tree denotes. */
module PacketEvaluator {
  import opened Wrappers
  import opened PacketDecoder
  import opened SeqFolds

  // ---------------------------------------------------------------------
  // Part 1: the sum of the version numbers

  function SumVersions(p: Package): (s: nat)
    ensures s >= p.version
    decreases p, 1
  {
    p.version + match p.inner
      case Literal(_) => 0
      case Operator(_, _, subs) => SumVersionsAll(subs)
  }

  function SumVersionsAll(ps: seq<Package>): nat
    decreases ps, 0
  {
    if ps == [] then 0 else SumVersions(ps[0]) + SumVersionsAll(ps[1..])
  }

  /** The version numbers of every package in the tree, parent first. */
  function AllVersions(p: Package): (vs: seq<nat>)
    ensures |vs| >= 1 && vs[0] == p.version
    decreases p, 1
  {
    [p.version] + match p.inner
      case Literal(_) => []
      case Operator(_, _, subs) => AllVersionsAll(subs)
  }

  function AllVersionsAll(ps: seq<Package>): seq<nat>
    decreases ps, 0
  {
    if ps == [] then [] else AllVersions(ps[0]) + AllVersionsAll(ps[1..])
  }

  /** Summing versions recursively is summing the version of every
      package in the tree. */
  lemma {:induction false} SumVersionsIsSumOfAll(p: Package)
    ensures SumVersions(p) == Sum(AllVersions(p))
    decreases p, 1
  {
    match p.inner {
      case Literal(_) =>
        assert AllVersions(p) == [p.version];
      case Operator(_, _, subs) =>
        SumVersionsAllIsSumOfAll(subs);
        SumAppend([p.version], AllVersionsAll(subs));
    }
  }

  lemma {:induction false} SumVersionsAllIsSumOfAll(ps: seq<Package>)
    ensures SumVersionsAll(ps) == Sum(AllVersionsAll(ps))
    decreases ps, 0
  {
    if ps != [] {
      SumVersionsIsSumOfAll(ps[0]);
      SumVersionsAllIsSumOfAll(ps[1..]);
      SumAppend(AllVersions(ps[0]), AllVersionsAll(ps[1..]));
    }
  }

  // ---------------------------------------------------------------------
  // Part 2: the value of the expression

  /** The comparison of an operator with type id 5, 6 or 7. */
  function Compare(typeId: nat, a: nat, b: nat): (r: nat)
    requires 5 <= typeId <= 7
    ensures r <= 1
    ensures r == 1 <==> (typeId == 5 && a > b) || (typeId == 6 && a < b) || (typeId == 7 && a == b)
  {
    if (typeId == 5 && a > b) || (typeId == 6 && a < b) || (typeId == 7 && a == b) then 1 else 0
  }

  /** The value of a package; None where the source panics (the minimum
      or maximum of no values, a comparison with fewer than two operands,
      or an operator type id the format does not define). */
  function Evaluate(p: Package): (r: Option<nat>)
    ensures r.Some? && p.inner.Literal? ==> r.value == p.inner.value
    ensures r.Some? && p.inner.Operator? && 5 <= p.inner.typeId <= 7 ==> r.value <= 1
    decreases p, 1
  {
    match p.inner
    case Literal(v) => Some(v)
    case Operator(t, _, subs) =>
      if t <= 3 then
        match EvaluateAll(subs)
        case None => None
        case Some(vs) =>
          if t == 0 then Some(Sum(vs))
          else if t == 1 then Some(Product(vs))
          else if vs == [] then None
          else if t == 2 then Some(MinOf(vs))
          else Some(MaxOf(vs))
      else if 5 <= t <= 7 then
        // Only the first two operands are ever evaluated.
        if |subs| < 2 then None
        else
          match Evaluate(subs[0])
          case None => None
          case Some(a) =>
            match Evaluate(subs[1])
            case None => None
            case Some(b) => Some(Compare(t, a, b))
      else None
  }

  function EvaluateAll(ps: seq<Package>): (r: Option<seq<nat>>)
    ensures r.Some? ==> |r.value| == |ps|
    decreases ps, 0
  {
    if ps == [] then Some([])
    else
      match Evaluate(ps[0])
      case None => None
      case Some(v) =>
        match EvaluateAll(ps[1..])
        case None => None
        case Some(vs) => Some([v] + vs)
  }

  /** The packages whose evaluation does not panic. */
  predicate Evaluable(p: Package)
    decreases p, 1
  {
    match p.inner
    case Literal(_) => true
    case Operator(t, _, subs) =>
      (t <= 1 && AllEvaluable(subs)) ||
      (2 <= t <= 3 && subs != [] && AllEvaluable(subs)) ||
      (5 <= t <= 7 && |subs| >= 2 && Evaluable(subs[0]) && Evaluable(subs[1]))
  }

  predicate AllEvaluable(ps: seq<Package>)
    decreases ps, 0
  {
    forall k :: 0 <= k < |ps| ==> Evaluable(ps[k])
  }

  /** Evaluation succeeds exactly on the evaluable packages. */
  lemma {:induction false} EvaluateDefined(p: Package)
    ensures Evaluate(p).Some? <==> Evaluable(p)
    decreases p, 1
  {
    match p.inner {
      case Literal(_) =>
      case Operator(t, _, subs) =>
        if t <= 3 {
          EvaluateAllDefined(subs);
        } else if 5 <= t <= 7 && |subs| >= 2 {
          EvaluateDefined(subs[0]);
          EvaluateDefined(subs[1]);
        }
    }
  }

  lemma {:induction false} EvaluateAllDefined(ps: seq<Package>)
    ensures EvaluateAll(ps).Some? <==> AllEvaluable(ps)
    decreases ps, 0
  {
    if ps != [] {
      EvaluateDefined(ps[0]);
      EvaluateAllDefined(ps[1..]);
      assert AllEvaluable(ps) <==> Evaluable(ps[0]) && AllEvaluable(ps[1..]) by {
        if Evaluable(ps[0]) && AllEvaluable(ps[1..]) {
          forall k | 0 <= k < |ps| ensures Evaluable(ps[k]) {
            if k > 0 {
              assert ps[k] == ps[1..][k - 1];
            }
          }
        }
        if AllEvaluable(ps) {
          forall k | 0 <= k < |ps| - 1 ensures Evaluable(ps[1..][k]) {
            assert ps[1..][k] == ps[k + 1];
          }
        }
      }
    }
  }

  /** The values of the operands, one per operand, in order. */
  lemma {:induction false} EvaluateAllValues(ps: seq<Package>, k: nat)
    requires EvaluateAll(ps).Some? && k < |ps|
    ensures Evaluate(ps[k]) == Some(EvaluateAll(ps).value[k])
    decreases k
  {
    if k > 0 {
      EvaluateAllValues(ps[1..], k - 1);
    }
  }

  /** A minimum operator's value is the value of one of its operands and
      no operand's value is smaller. */
  lemma MinimumOperator(p: Package)
    requires p.inner.Operator? && p.inner.typeId == 2 && Evaluate(p).Some?
    ensures exists k :: 0 <= k < |p.inner.subPackages| && Evaluate(p.inner.subPackages[k]) == Evaluate(p)
    ensures forall k :: 0 <= k < |p.inner.subPackages| ==>
              Evaluate(p.inner.subPackages[k]).Some? && Evaluate(p).value <= Evaluate(p.inner.subPackages[k]).value
  {
    var subs := p.inner.subPackages;
    var vs := EvaluateAll(subs).value;
    forall k | 0 <= k < |subs|
      ensures Evaluate(subs[k]).Some? && Evaluate(p).value <= Evaluate(subs[k]).value
    {
      EvaluateAllValues(subs, k);
    }
    var k :| 0 <= k < |vs| && vs[k] == MinOf(vs);
    EvaluateAllValues(subs, k);
  }

  /** A maximum operator's value is the value of one of its operands and
      no operand's value is larger. */
  lemma MaximumOperator(p: Package)
    requires p.inner.Operator? && p.inner.typeId == 3 && Evaluate(p).Some?
    ensures exists k :: 0 <= k < |p.inner.subPackages| && Evaluate(p.inner.subPackages[k]) == Evaluate(p)
    ensures forall k :: 0 <= k < |p.inner.subPackages| ==>
              Evaluate(p.inner.subPackages[k]).Some? && Evaluate(p.inner.subPackages[k]).value <= Evaluate(p).value
  {
    var subs := p.inner.subPackages;
    var vs := EvaluateAll(subs).value;
    forall k | 0 <= k < |subs|
      ensures Evaluate(subs[k]).Some? && Evaluate(subs[k]).value <= Evaluate(p).value
    {
      EvaluateAllValues(subs, k);
    }
    var k :| 0 <= k < |vs| && vs[k] == MaxOf(vs);
    EvaluateAllValues(subs, k);
  }
}
