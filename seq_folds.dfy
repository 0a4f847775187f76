/** Folds over lists of natural numbers shared by the puzzle models. */
module SeqFolds {
  function Sum(xs: seq<nat>): nat {
    if xs == [] then 0 else xs[0] + Sum(xs[1..])
  }

  function Product(xs: seq<nat>): nat {
    if xs == [] then 1 else xs[0] * Product(xs[1..])
  }

  /** Rust's `Iterator::min` on a list it knows to be non-empty. */
  function MinOf(xs: seq<nat>): (m: nat)
    requires xs != []
    ensures m in xs && forall k :: 0 <= k < |xs| ==> m <= xs[k]
  {
    if |xs| == 1 then xs[0]
    else
      var rest := MinOf(xs[1..]);
      if xs[0] <= rest then xs[0] else rest
  }

  /** Rust's `Iterator::max` on a list it knows to be non-empty. */
  function MaxOf(xs: seq<nat>): (m: nat)
    requires xs != []
    ensures m in xs && forall k :: 0 <= k < |xs| ==> xs[k] <= m
  {
    if |xs| == 1 then xs[0]
    else
      var rest := MaxOf(xs[1..]);
      if xs[0] >= rest then xs[0] else rest
  }

  lemma {:induction false} SumAppend(a: seq<nat>, b: seq<nat>)
    ensures Sum(a + b) == Sum(a) + Sum(b)
  {
    if a != [] {
      assert (a + b)[0] == a[0] && (a + b)[1..] == a[1..] + b;
      SumAppend(a[1..], b);
    } else {
      assert a + b == b;
    }
  }

  /** Taking one element out of a list leaves the others. */
  lemma RemoveAt(b: seq<nat>, i: nat)
    requires i < |b|
    ensures multiset(b[..i] + b[i + 1..]) + multiset{b[i]} == multiset(b)
  {
    assert b == b[..i] + [b[i]] + b[i + 1..];
  }

  /** ... and their sum is the sum less that element. */
  lemma RemoveAtSum(b: seq<nat>, i: nat)
    requires i < |b|
    ensures Sum(b[..i] + b[i + 1..]) + b[i] == Sum(b)
  {
    assert b[..i] + b[i..] == b;
    SumAppend(b[..i], b[i..]);
    assert b[i..][1..] == b[i + 1..];
    SumAppend(b[..i], b[i + 1..]);
  }

  /** Reordering a list does not change its sum. */
  lemma {:induction false} SumPermutation(a: seq<nat>, b: seq<nat>)
    requires multiset(a) == multiset(b)
    ensures Sum(a) == Sum(b)
    decreases |a|
  {
    if a == [] {
      assert |b| == |multiset(b)| == 0;
    } else {
      var x := a[0];
      assert x in multiset(b);
      var i :| 0 <= i < |b| && b[i] == x;
      var rest := b[..i] + b[i + 1..];
      RemoveAt(b, i);
      RemoveAtSum(b, i);
      assert a == [x] + a[1..];
      assert multiset(a) == multiset(a[1..]) + multiset{x};
      assert multiset(rest) == multiset(rest) + multiset{x} - multiset{x};
      assert multiset(a[1..]) == multiset(a[1..]) + multiset{x} - multiset{x};
      SumPermutation(a[1..], rest);
    }
  }

  /** A product is zero exactly when one of its factors is. */
  lemma {:induction false} ProductZero(xs: seq<nat>)
    ensures Product(xs) == 0 <==> 0 in xs
  {
    if xs != [] {
      ProductZero(xs[1..]);
      assert xs == [xs[0]] + xs[1..];
    }
  }
}
