// Extended Polymerization: a polymer template is kept as the counts of its
// adjacent pairs of elements; each step inserts, between the two elements
// of every pair that has a rule, the element the rule names. The answer is
// the count of the most common element minus that of the least common one.
//
// The source keeps the pair counts in a hash map from a pair to a positive
// count; a map whose counts are all positive is a multiset, and the model
// keeps multisets so that the order in which a hash map is visited does
// not matter.

module ExtendedPolymerization {
  newtype byte = b: int | 0 <= b < 256

  type Pair = (byte, byte)

  // Folding a multiset of pairs, one occurrence at a time.

  /** The union, over every occurrence of a pair in `m`, of its image under
      `f`. */
  ghost function FlatMap<T>(m: multiset<Pair>, f: Pair -> multiset<T>): multiset<T>
    decreases |m|
  {
    if m == multiset{} then multiset{}
    else
      var p :| p in m;
      f(p) + FlatMap(m - multiset{p}, f)
  }

  /** Any occurrence may be taken first. */
  lemma {:induction false} FlatMapRemove<T>(m: multiset<Pair>, f: Pair -> multiset<T>, x: Pair)
    requires x in m
    ensures FlatMap(m, f) == f(x) + FlatMap(m - multiset{x}, f)
    decreases |m|
  {
    var y :| y in m && FlatMap(m, f) == f(y) + FlatMap(m - multiset{y}, f);
    if y != x {
      var rest := m - multiset{x} - multiset{y};
      assert m - multiset{y} - multiset{x} == rest;
      FlatMapRemove(m - multiset{y}, f, x);
      FlatMapRemove(m - multiset{x}, f, y);
    }
  }

  lemma {:induction false} FlatMapUnion<T>(a: multiset<Pair>, b: multiset<Pair>, f: Pair -> multiset<T>)
    ensures FlatMap(a + b, f) == FlatMap(a, f) + FlatMap(b, f)
    decreases |a|
  {
    if a == multiset{} {
      assert a + b == b;
    } else {
      var x :| x in a;
      var a' := a - multiset{x};
      assert FlatMap(a + b, f) == f(x) + FlatMap(a' + b, f) by {
        FlatMapRemove(a + b, f, x);
        assert (a + b) - multiset{x} == a' + b;
      }
      assert FlatMap(a, f) == f(x) + FlatMap(a', f) by {
        FlatMapRemove(a, f, x);
      }
      FlatMapUnion(a', b, f);
    }
  }

  /** `n` copies of `x`. */
  function Copies<T(!new)>(x: T, n: nat): (m: multiset<T>)
    ensures m[x] == n && forall y :: y != x ==> m[y] == 0
  {
    multiset{}[x := n]
  }

  lemma {:induction false} FlatMapCopies<T>(x: Pair, n: nat, f: Pair -> multiset<T>)
    ensures FlatMap(Copies(x, n), f) == Repeat(f(x), n)
  {
    if n == 0 {
      assert Copies(x, n) == multiset{};
    } else {
      var c := Copies(x, n - 1);
      assert FlatMap(Copies(x, n), f) == FlatMap(multiset{x}, f) + FlatMap(c, f) by {
        assert Copies(x, n) == multiset{x} + c;
        FlatMapUnion(multiset{x}, c, f);
      }
      assert FlatMap(multiset{x}, f) == f(x) by {
        FlatMapRemove(multiset{x}, f, x);
        assert multiset{x} - multiset{x} == multiset{};
      }
      FlatMapCopies(x, n - 1, f);
    }
  }

  /** `n` copies of every occurrence in `m`. */
  function Repeat<T>(m: multiset<T>, n: nat): multiset<T> {
    if n == 0 then multiset{} else m + Repeat(m, n - 1)
  }

  lemma {:induction false} RepeatTwo<T(!new)>(a: T, b: T, n: nat)
    ensures Repeat(multiset{a, b}, n) == Copies(a, n) + Copies(b, n)
  {
    if n > 0 {
      RepeatTwo(a, b, n - 1);
    }
  }

  /** Taking every occurrence of `p` at once. */
  lemma TakeAll<T>(m: multiset<Pair>, p: Pair, f: Pair -> multiset<T>)
    ensures FlatMap(m, f) == FlatMap(m[p := 0], f) + Repeat(f(p), m[p])
  {
    assert m == m[p := 0] + Copies(p, m[p]);
    FlatMapUnion(m[p := 0], Copies(p, m[p]), f);
    FlatMapCopies(p, m[p], f);
  }

  lemma FlatMapNone<T>(m: multiset<Pair>, f: Pair -> multiset<T>)
    requires forall p :: p in m ==> f(p) == multiset{}
    ensures FlatMap(m, f) == multiset{}
    decreases |m|
  {
    if m != multiset{} {
      var x :| x in m;
      FlatMapRemove(m, f, x);
      FlatMapNone(m - multiset{x}, f);
    }
  }

  /** Adding `n` to the count of `x` adds `n` copies of `x`. */
  lemma AddCopies<T(!new)>(m: multiset<T>, x: T, n: nat)
    ensures m[x := m[x] + n] == m + Copies(x, n)
  {
    var l, r := m[x := m[x] + n], m + Copies(x, n);
    forall y
      ensures l[y] == r[y]
    {
    }
  }

  /** One pass of a loop that folds the occurrences of `p` into `acc` at
      once: `n` copies of each of the two elements of its image. */
  lemma FoldStep<T(!new)>(acc: multiset<T>, rest: multiset<Pair>, whole: multiset<T>, f: Pair -> multiset<T>, p: Pair, a: T, b: T)
    requires acc + FlatMap(rest, f) == whole && f(p) == multiset{a, b}
    ensures var acc' := acc[a := acc[a] + rest[p]];
      acc'[b := acc'[b] + rest[p]] + FlatMap(rest[p := 0], f) == whole
  {
    var n := rest[p];
    TakeAll(rest, p, f);
    RepeatTwo(a, b, n);
    AddCopies(acc, a, n);
    AddCopies(acc + Copies(a, n), b, n);
  }

  // The polymer as a string of elements: the independent reference.

  /** The adjacent pairs of a template, as `windows(2)` yields them. */
  function PairCounts(s: seq<byte>): multiset<Pair> {
    if |s| < 2 then multiset{}
    else PairCounts(s[..|s| - 1]) + multiset{(s[|s| - 2], s[|s| - 1])}
  }

  /** A template of `n` elements has `n - 1` adjacent pairs. */
  lemma {:induction false} PairCountsSize(s: seq<byte>)
    requires |s| > 0
    ensures |PairCounts(s)| == |s| - 1
  {
    if |s| >= 2 {
      PairCountsSize(s[..|s| - 1]);
    }
  }

  /** Every adjacent pair of `s` has a rule. */
  predicate Ruled(s: seq<byte>, rules: map<Pair, byte>) {
    forall i :: 0 <= i < |s| - 1 ==> (s[i], s[i + 1]) in rules
  }

  /** One step of the puzzle on the string: the element a rule names is
      inserted between the two elements of every pair that has one. */
  function Insert(s: seq<byte>, rules: map<Pair, byte>): (t: seq<byte>)
    ensures |s| > 0 ==> |t| > 0 && t[0] == s[0] && t[|t| - 1] == s[|s| - 1]
  {
    if |s| < 2 then s
    else
      var p := (s[|s| - 2], s[|s| - 1]);
      Insert(s[..|s| - 1], rules) + (if p in rules then [rules[p]] else []) + [s[|s| - 1]]
  }

  function InsertN(s: seq<byte>, rules: map<Pair, byte>, n: nat): seq<byte>
    decreases n
  {
    if n == 0 then s else InsertN(Insert(s, rules), rules, n - 1)
  }

  // `react` on counts.

  /** What one occurrence of a pair becomes in `react`: the two pairs
      around the inserted element, or nothing if no rule matches. */
  function Products(rules: map<Pair, byte>): Pair -> multiset<Pair> {
    p => if p in rules then multiset{(p.0, rules[p]), (rules[p], p.1)} else multiset{}
  }

  /** The pair counts after `react`. */
  ghost function Reacted(units: multiset<Pair>, rules: map<Pair, byte>): multiset<Pair> {
    FlatMap(units, Products(rules))
  }

  /** The pair counts after `n` reactions. */
  ghost function ReactedN(units: multiset<Pair>, rules: map<Pair, byte>, n: nat): multiset<Pair>
    decreases n
  {
    if n == 0 then units else ReactedN(Reacted(units, rules), rules, n - 1)
  }

  /** Reactions compose: `n` reactions after `m` reactions are `m + n`. */
  lemma {:induction false} ReactedNAdd(units: multiset<Pair>, rules: map<Pair, byte>, m: nat, n: nat)
    ensures ReactedN(ReactedN(units, rules, m), rules, n) == ReactedN(units, rules, m + n)
    decreases m
  {
    if m > 0 {
      ReactedNAdd(Reacted(units, rules), rules, m - 1, n);
    }
  }

  /** The last pair of a template, split off. */
  lemma PairCountsLast(t: seq<byte>, s: seq<byte>, a: byte)
    requires |s| > 0 && |t| == |s| + 1 && t[..|s|] == s && t[|s|] == a
    ensures PairCounts(t) == PairCounts(s) + multiset{(s[|s| - 1], a)}
  {
    assert t[..|t| - 1] == s;
  }

  /** Two more elements at the end of a template add their two pairs. */
  lemma PairCountsTwo(s: seq<byte>, a: byte, b: byte, u: seq<byte>)
    requires |s| > 0 && u == s + [a, b]
    ensures PairCounts(u) == PairCounts(s) + multiset{(s[|s| - 1], a), (a, b)}
  {
    var t := s + [a];
    PairCountsLast(t, s, a);
    PairCountsLast(u, t, b);
  }

  /** `react` on the last pair of a template, split off from the rest. */
  lemma ReactLast(s: seq<byte>, rules: map<Pair, byte>)
    requires |s| >= 2 && (s[|s| - 2], s[|s| - 1]) in rules
    ensures var x, y := s[|s| - 2], s[|s| - 1];
      Reacted(PairCounts(s), rules)
      == Reacted(PairCounts(s[..|s| - 1]), rules) + multiset{(x, rules[(x, y)]), (rules[(x, y)], y)}
  {
    var p := (s[|s| - 2], s[|s| - 1]);
    FlatMapUnion(PairCounts(s[..|s| - 1]), multiset{p}, Products(rules));
    FlatMapRemove(multiset{p}, Products(rules), p);
    assert multiset{p} - multiset{p} == multiset{};
  }

  /** The insertion step on the last pair of a template, split off. */
  lemma InsertLast(s: seq<byte>, rules: map<Pair, byte>)
    requires |s| >= 2 && (s[|s| - 2], s[|s| - 1]) in rules
    ensures var x, y := s[|s| - 2], s[|s| - 1];
      PairCounts(Insert(s, rules))
      == PairCounts(Insert(s[..|s| - 1], rules)) + multiset{(x, rules[(x, y)]), (rules[(x, y)], y)}
  {
    var t, c, y := Insert(s[..|s| - 1], rules), rules[(s[|s| - 2], s[|s| - 1])], s[|s| - 1];
    assert Insert(s, rules) == t + [c, y];
    PairCountsTwo(t, c, y, Insert(s, rules));
  }

  /** On a template whose pairs all have rules, `react` on its pair counts
      gives the pair counts of the template after one insertion step. */
  lemma {:induction false} ReactInsert(s: seq<byte>, rules: map<Pair, byte>)
    requires Ruled(s, rules)
    ensures Reacted(PairCounts(s), rules) == PairCounts(Insert(s, rules))
  {
    if |s| < 2 {
      FlatMapNone(PairCounts(s), Products(rules));
    } else {
      assert Ruled(s[..|s| - 1], rules);
      ReactInsert(s[..|s| - 1], rules);
      ReactLast(s, rules);
      InsertLast(s, rules);
    }
  }

  // The element counts of `give_answer`.

  function Ends(p: Pair): multiset<byte> {
    multiset{p.0, p.1}
  }

  /** Every element of every pair, counted once per occurrence. */
  ghost function Letters(units: multiset<Pair>): multiset<byte> {
    FlatMap(units, Ends)
  }

  lemma LettersSnoc(m: multiset<Pair>, p: Pair)
    ensures Letters(m + multiset{p}) == Letters(m) + multiset{p.0, p.1}
  {
    FlatMapUnion(m, multiset{p}, Ends);
    FlatMapRemove(multiset{p}, Ends, p);
    assert multiset{p} - multiset{p} == multiset{};
  }

  /** The inductive step of `LettersTwice`, on the counts alone. */
  lemma LettersStep(pc: multiset<Pair>, pc': multiset<Pair>, ms: multiset<byte>, ms': multiset<byte>, f: byte, x: byte, y: byte)
    requires pc == pc' + multiset{(x, y)} && ms == ms' + multiset{y}
    requires Letters(pc') + multiset{f, x} == ms' + ms'
    ensures Letters(pc) + multiset{f, y} == ms + ms
  {
    LettersSnoc(pc', (x, y));
    TwiceStep(Letters(pc'), ms', f, x, y);
  }

  lemma TwiceStep(l: multiset<byte>, a: multiset<byte>, f: byte, x: byte, y: byte)
    requires l + multiset{f, x} == a + a
    ensures (l + multiset{x, y}) + multiset{f, y} == (a + multiset{y}) + (a + multiset{y})
  {
    var lhs, rhs := (l + multiset{x, y}) + multiset{f, y}, (a + multiset{y}) + (a + multiset{y});
    forall b
      ensures lhs[b] == rhs[b]
    {
      assert (l + multiset{f, x})[b] == (a + a)[b];
    }
  }

  lemma MultisetSnoc(s: seq<byte>)
    requires |s| > 0
    ensures multiset(s) == multiset(s[..|s| - 1]) + multiset{s[|s| - 1]}
  {
    assert s == s[..|s| - 1] + [s[|s| - 1]];
  }

  /** Counting both elements of every pair counts every element twice,
      except the first and the last, which are counted once. */
  lemma {:induction false} LettersTwice(s: seq<byte>)
    requires |s| > 0
    ensures Letters(PairCounts(s)) + multiset{s[0], s[|s| - 1]} == multiset(s) + multiset(s)
  {
    if |s| == 1 {
      FlatMapNone(PairCounts(s), Ends);
      assert multiset(s) == multiset{s[0]};
    } else {
      var s', x, y := s[..|s| - 1], s[|s| - 2], s[|s| - 1];
      MultisetSnoc(s);
      LettersTwice(s');
      LettersStep(PairCounts(s), PairCounts(s'), multiset(s), multiset(s'), s[0], x, y);
    }
  }

  // Largest and smallest counts.

  /** The largest multiplicity in `m` (0 for the empty multiset). */
  function MaxCount(m: multiset<byte>): (v: nat)
    ensures forall b :: m[b] <= v
    ensures m != multiset{} ==> exists b :: b in m && m[b] == v
  {
    MaxBelow(m, 256)
  }

  function MaxBelow(m: multiset<byte>, k: nat): (v: nat)
    requires k <= 256
    ensures forall b: byte :: b as int < k ==> m[b] <= v
    ensures (exists b: byte :: b as int < k && b in m) ==> exists b: byte :: b as int < k && b in m && m[b] == v
    ensures v > 0 ==> exists b: byte :: b as int < k && b in m
  {
    if k == 0 then 0
    else
      var v := MaxBelow(m, k - 1);
      var b := (k - 1) as byte;
      if m[b] > v then m[b] else v
  }

  /** The smallest multiplicity of an element of `m`, if there is one. */
  function MinCount(m: multiset<byte>): (v: nat)
    requires m != multiset{}
    ensures forall b :: b in m ==> v <= m[b]
    ensures exists b :: b in m && m[b] == v
  {
    MinBelow(m, 256).0
  }

  /** The smallest multiplicity of an element below `k`, and whether
      there is one. */
  function MinBelow(m: multiset<byte>, k: nat): (r: (nat, bool))
    requires k <= 256
    ensures r.1 <==> exists b: byte :: b as int < k && b in m
    ensures r.1 ==> exists b: byte :: b as int < k && b in m && m[b] == r.0
    ensures forall b: byte :: b as int < k && b in m ==> r.0 <= m[b]
  {
    if k == 0 then (0, false)
    else
      var (v, found) := MinBelow(m, k - 1);
      var b := (k - 1) as byte;
      if b !in m then (v, found)
      else if !found || m[b] < v then (m[b], true)
      else (v, true)
  }

  /** Doubling every count doubles the largest and the smallest. */
  lemma Doubled(m: multiset<byte>)
    requires m != multiset{}
    ensures MaxCount(m + m) == 2 * MaxCount(m) && MinCount(m + m) == 2 * MinCount(m)
  {
    var b :| b in m && m[b] == MaxCount(m);
    assert (m + m)[b] == 2 * MaxCount(m);
    var c :| c in m + m && (m + m)[c] == MaxCount(m + m);
    assert m[c] <= MaxCount(m);
    var d :| d in m && m[d] == MinCount(m);
    assert (m + m)[d] == 2 * MinCount(m);
    var e :| e in m + m && (m + m)[e] == MinCount(m + m);
    assert MinCount(m) <= m[e];
  }

  /** The puzzle's answer for a polymer: the count of its most common
      element minus that of its least common one. */
  function Spread(s: seq<byte>): nat
    requires |s| > 0
  {
    MaxCount(multiset(s)) - MinCount(multiset(s))
  }

  // Parsing.

  /** `collect` of the rule lines into a map: a later rule for the same
      pair replaces an earlier one. */
  function RulesMap(lines: seq<(Pair, byte)>): (m: map<Pair, byte>)
    ensures forall i :: 0 <= i < |lines| ==> lines[i].0 in m
    ensures forall p :: p in m ==> exists i :: 0 <= i < |lines| && lines[i] == (p, m[p])
  {
    if lines == [] then map[]
    else
      var (p, c) := lines[|lines| - 1];
      RulesMap(lines[..|lines| - 1])[p := c]
  }

  /** `x` is one of the elements of `alphabet`. The wrapper keeps the
      quantifier of `Closed` from feeding itself. */
  predicate Element(x: byte, alphabet: set<byte>) {
    x in alphabet
  }

  /** The elements of a template are all in `alphabet`. */
  predicate Within(s: seq<byte>, alphabet: set<byte>) {
    forall i :: 0 <= i < |s| ==> Element(s[i], alphabet)
  }

  /** Every pair of elements of `alphabet` has a rule that inserts an
      element of `alphabet`, as in the puzzle. */
  predicate Closed(rules: map<Pair, byte>, alphabet: set<byte>) {
    forall a, b :: Element(a, alphabet) && Element(b, alphabet) ==> (a, b) in rules && rules[(a, b)] in alphabet
  }

  lemma {:induction false} InsertWithin(s: seq<byte>, rules: map<Pair, byte>, alphabet: set<byte>)
    requires Within(s, alphabet) && Closed(rules, alphabet)
    ensures Ruled(s, rules) && Within(Insert(s, rules), alphabet)
  {
    if |s| >= 2 {
      InsertWithin(s[..|s| - 1], rules, alphabet);
    }
  }

  /** One rule of `react`: the count of its pair goes to the two pairs
      around the inserted element. */
  method ReactRule(next: multiset<Pair>, units: multiset<Pair>, rules: map<Pair, byte>, rule: Pair,
                   ghost rest: multiset<Pair>, ghost whole: multiset<Pair>)
    returns (next': multiset<Pair>)
    requires rule in rules && rest[rule] == units[rule]
    requires next + FlatMap(rest, Products(rules)) == whole
    ensures next' + FlatMap(rest[rule := 0], Products(rules)) == whole
  {
    var ins := rules[rule];
    next' := next;
    var count := units[rule];
    if count > 0 {
      FoldStep(next, rest, whole, Products(rules), rule, (rule.0, ins), (ins, rule.1));
      next' := next'[(rule.0, ins) := next'[(rule.0, ins)] + count];
      next' := next'[(ins, rule.1) := next'[(ins, rule.1)] + count];
    } else {
      assert rest[rule := 0] == rest;
    }
  }

  /** One entry of the count map in `give_answer`: both elements of the
      pair are counted as often as the pair occurs. */
  method TallyPair(counts: multiset<byte>, todo: multiset<Pair>, p: Pair, ghost whole: multiset<byte>)
    returns (counts': multiset<byte>)
    requires counts + Letters(todo) == whole
    ensures counts' + Letters(todo[p := 0]) == whole
  {
    FoldStep(counts, todo, whole, Ends, p, p.0, p.1);
    var count := todo[p];
    counts' := counts[p.0 := counts[p.0] + count];
    counts' := counts'[p.1 := counts'[p.1] + count];
  }

  /** The new pair counts of `react`, built from the rules visited in any
      order. */
  method NewUnits(units: multiset<Pair>, rules: map<Pair, byte>) returns (next: multiset<Pair>)
    ensures next == Reacted(units, rules)
  {
    var f := Products(rules);
    next := multiset{};
    var todo := rules.Keys;
    ghost var rest := units;
    while todo != {}
      invariant todo <= rules.Keys
      invariant next + FlatMap(rest, f) == FlatMap(units, f)
      invariant forall p :: p in todo ==> rest[p] == units[p]
      invariant forall p :: p in rules && p !in todo ==> rest[p] == 0
      decreases |todo|
    {
      var rule :| rule in todo;
      next := ReactRule(next, units, rules, rule, rest, FlatMap(units, f));
      rest := rest[rule := 0];
      todo := todo - {rule};
    }
    FlatMapNone(rest, f);
    assert next + multiset{} == next;
  }

  /** The loop of `give_answer` over the pair counts: both elements of
      every pair, counted as often as the pair occurs. */
  method Tally(units: multiset<Pair>) returns (counts: multiset<byte>)
    ensures counts == Letters(units)
  {
    counts := multiset{};
    var todo := units;
    while todo != multiset{}
      invariant counts + Letters(todo) == Letters(units)
      decreases |todo|
    {
      var p :| p in todo;
      counts := TallyPair(counts, todo, p, Letters(units));
      todo := todo[p := 0];
    }
    FlatMapNone(todo, Ends);
  }

  /** What `give_answer` computes from pair counts and the two ends. */
  ghost function Answer(units: multiset<Pair>, first: byte, last: byte): nat {
    HalfGap(Letters(units) + multiset{first, last})
  }

  /** Half the difference between the largest and the smallest count. */
  function HalfGap(counts: multiset<byte>): nat
    requires counts != multiset{}
  {
    (MaxCount(counts) - MinCount(counts)) / 2
  }

  /** `Polymer`: the pair counts, the rules, and the first and last
      elements of the template, which never change. */
  class Polymer {
    var units: multiset<Pair>
    var rules: map<Pair, byte>
    var first: byte
    var last: byte

    /** The pair counts stand for the template `s`. */
    ghost predicate Represents(s: seq<byte>)
      reads this
    {
      |s| > 0 && units == PairCounts(s) && first == s[0] && last == s[|s| - 1]
    }

    /** `parse`: counts the adjacent pairs of the template and collects the
        rules. The template must not be empty: its first element is read
        unconditionally. */
    constructor Parse(template: seq<byte>, lines: seq<(Pair, byte)>)
      requires |template| > 0
      ensures Represents(template) && rules == RulesMap(lines)
    {
      first := template[0];
      last := template[|template| - 1];
      var counts: multiset<Pair> := multiset{};
      var i := 0;
      while i + 1 < |template|
        invariant i < |template|
        invariant counts == PairCounts(template[..i + 1])
      {
        var p := (template[i], template[i + 1]);
        counts := counts[p := counts[p] + 1];
        assert template[..i + 2][..i + 1] == template[..i + 1];
        i := i + 1;
      }
      assert template[..i + 1] == template;
      units := counts;
      rules := RulesMap(lines);
    }

    /** `react`: every ruled pair's count goes to the two pairs around the
        inserted element; pairs without a rule are dropped. The rules are
        visited in any order. */
    method React()
      modifies this
      ensures units == Reacted(old(units), rules)
      ensures rules == old(rules) && first == old(first) && last == old(last)
    {
      units := NewUnits(units, rules);
    }

    /** `give_answer`: counts the elements of every pair, adds the first
        and the last element, and halves the difference between the
        largest and the smallest count. */
    method GiveAnswer() returns (r: nat)
      ensures r == Answer(units, first, last)
    {
      var counts := Tally(units);
      counts := counts[first := counts[first] + 1];
      counts := counts[last := counts[last] + 1];
      assert counts == Letters(units) + multiset{first, last};
      r := HalfGap(counts);
    }
  }

  /** On the pair counts of a template, `give_answer` is the puzzle's
      answer for that template. */
  lemma AnswerSpread(s: seq<byte>)
    requires |s| > 0
    ensures var counts := Letters(PairCounts(s)) + multiset{s[0], s[|s| - 1]};
      (MaxCount(counts) - MinCount(counts)) / 2 == Spread(s)
  {
    LettersTwice(s);
    assert s[0] in multiset(s);
    Doubled(multiset(s));
  }

  /** `part_core`: `steps` reactions, then the answer. For any rules the
      counts become the iterated reaction of the old counts. When the
      counts stand for a template whose alphabet the rules cover, they
      stand for the template after `steps` insertion steps and the answer
      is its spread. */
  method PartCore(polymer: Polymer, steps: nat, ghost s: seq<byte>, ghost alphabet: set<byte>) returns (r: nat)
    modifies polymer
    ensures polymer.rules == old(polymer.rules)
    ensures polymer.first == old(polymer.first) && polymer.last == old(polymer.last)
    ensures polymer.units == ReactedN(old(polymer.units), polymer.rules, steps)
    ensures r == Answer(polymer.units, polymer.first, polymer.last)
    ensures old(polymer.Represents(s)) && Within(s, alphabet) && Closed(polymer.rules, alphabet) ==>
      polymer.Represents(InsertN(s, polymer.rules, steps)) &&
      |InsertN(s, polymer.rules, steps)| > 0 && r == Spread(InsertN(s, polymer.rules, steps))
  {
    ghost var good := polymer.Represents(s) && Within(s, alphabet) && Closed(polymer.rules, alphabet);
    ghost var start := polymer.units;
    var k := 0;
    ghost var t := s;
    while k < steps
      invariant k <= steps
      invariant polymer.rules == old(polymer.rules)
      invariant polymer.first == old(polymer.first) && polymer.last == old(polymer.last)
      invariant ReactedN(polymer.units, polymer.rules, steps - k) == ReactedN(start, polymer.rules, steps)
      invariant good ==> polymer.Represents(t) && Within(t, alphabet)
      invariant InsertN(t, polymer.rules, steps - k) == InsertN(s, polymer.rules, steps)
    {
      if good {
        InsertWithin(t, polymer.rules, alphabet);
        ReactInsert(t, polymer.rules);
      }
      polymer.React();
      t := Insert(t, polymer.rules);
      k := k + 1;
    }
    r := polymer.GiveAnswer();
    if good {
      AnswerSpread(t);
    }
  }

  /** Insertion steps compose: `n` steps after `m` steps are `m + n`
      steps. */
  lemma {:induction false} InsertNAdd(s: seq<byte>, rules: map<Pair, byte>, m: nat, n: nat)
    ensures InsertN(InsertN(s, rules, m), rules, n) == InsertN(s, rules, m + n)
    decreases m
  {
    if m > 0 {
      InsertNAdd(Insert(s, rules), rules, m - 1, n);
    }
  }

  /** `run` without the input file: part 1 after 10 reactions, then part 2
      after 30 more reactions of the same polymer, which is the answer
      after 40. When the rules cover the template's alphabet these are the
      spreads of the template after 10 and 40 insertion steps. */
  method Run(template: seq<byte>, lines: seq<(Pair, byte)>, ghost alphabet: set<byte>) returns (p1: nat, p2: nat)
    requires |template| > 0
    ensures p1 == Answer(ReactedN(PairCounts(template), RulesMap(lines), 10), template[0], template[|template| - 1])
    ensures p2 == Answer(ReactedN(PairCounts(template), RulesMap(lines), 40), template[0], template[|template| - 1])
    ensures Within(template, alphabet) && Closed(RulesMap(lines), alphabet) ==>
      |InsertN(template, RulesMap(lines), 10)| > 0 && p1 == Spread(InsertN(template, RulesMap(lines), 10)) &&
      |InsertN(template, RulesMap(lines), 40)| > 0 && p2 == Spread(InsertN(template, RulesMap(lines), 40))
  {
    var polymer := new Polymer.Parse(template, lines);
    ghost var rules, start := polymer.rules, polymer.units;
    ghost var good := Within(template, alphabet) && Closed(rules, alphabet);
    assert rules == RulesMap(lines) && start == PairCounts(template);
    assert polymer.first == template[0] && polymer.last == template[|template| - 1];
    p1 := PartCore(polymer, 10, template, alphabet);
    assert p1 == Answer(ReactedN(start, rules, 10), template[0], template[|template| - 1]);
    ghost var t := InsertN(template, rules, 10);
    assert good ==> |t| > 0 && p1 == Spread(t);
    if good {
      InsertNWithin(template, rules, alphabet, 10);
    }
    ghost var middle := polymer.units;
    p2 := PartCore(polymer, 40 - 10, t, alphabet);
    assert polymer.units == ReactedN(middle, rules, 30);
    ReactedNAdd(start, rules, 10, 30);
    assert p2 == Answer(ReactedN(start, rules, 40), template[0], template[|template| - 1]);
    InsertNAdd(template, rules, 10, 30);
    assert good ==> |InsertN(template, rules, 40)| > 0 && p2 == Spread(InsertN(template, rules, 40));
  }

  lemma {:induction false} InsertNWithin(s: seq<byte>, rules: map<Pair, byte>, alphabet: set<byte>, n: nat)
    requires Within(s, alphabet) && Closed(rules, alphabet)
    ensures Within(InsertN(s, rules, n), alphabet)
    decreases n
  {
    if n > 0 {
      InsertWithin(s, rules, alphabet);
      InsertNWithin(Insert(s, rules), rules, alphabet, n - 1);
    }
  }
}
