/** Beacon scanner registration (2021, day 19): readings of 3-D beacon
    positions, each in its own scanner frame, are rotated by one of the 24
    axis-aligned rotations and translated until at least 12 of their
    beacons coincide with beacons already known in the frame of scanner 0. */
module ScannerRegistration {
  import opened Wrappers

  datatype Point3 = Point3(x: int, y: int, z: int)

  function Abs(n: int): nat { if n < 0 then -n else n }

  function Add(p: Point3, q: Point3): Point3 { Point3(p.x + q.x, p.y + q.y, p.z + q.z) }

  function Sub(p: Point3, q: Point3): Point3 { Point3(p.x - q.x, p.y - q.y, p.z - q.z) }

  /** Manhattan length of a vector. */
  function Norm(p: Point3): nat { Abs(p.x) + Abs(p.y) + Abs(p.z) }

  function Manhattan(p: Point3, q: Point3): nat { Norm(Sub(p, q)) }

  /** The number of beacons two readings must share before they are aligned. */
  const MatchThreshold := 12
  /** 12 choose 2: the distance-signature overlap the pre-filter asks for. */
  const SignatureThreshold := 66

  /** The 24 axis-aligned orientations, each a signed permutation of the
      coordinates. */
  function Rotate(p: Point3, r: nat): (q: Point3)
    requires r < 24
    ensures Norm(q) == Norm(p)
  {
    var x, y, z := p.x, p.y, p.z;
    match r
    case 0 => Point3(x, y, z)
    case 1 => Point3(x, z, -y)
    case 2 => Point3(x, -y, -z)
    case 3 => Point3(x, -z, y)
    case 4 => Point3(y, x, -z)
    case 5 => Point3(y, z, x)
    case 6 => Point3(y, -x, z)
    case 7 => Point3(y, -z, -x)
    case 8 => Point3(z, x, y)
    case 9 => Point3(z, y, -x)
    case 10 => Point3(z, -x, -y)
    case 11 => Point3(z, -y, x)
    case 12 => Point3(-x, y, -z)
    case 13 => Point3(-x, z, y)
    case 14 => Point3(-x, -y, z)
    case 15 => Point3(-x, -z, -y)
    case 16 => Point3(-y, x, z)
    case 17 => Point3(-y, z, -x)
    case 18 => Point3(-y, -x, -z)
    case 19 => Point3(-y, -z, x)
    case 20 => Point3(-z, x, -y)
    case 21 => Point3(-z, y, x)
    case 22 => Point3(-z, -x, y)
    case 23 => Point3(-z, -y, -x)
    case _ => assert false; p
  }

  /** The rotation that undoes rotation `r`. */
  function Inverse(r: nat): (s: nat)
    requires r < 24
    ensures s < 24
  {
    [0, 3, 2, 1, 4, 8, 16, 20, 5, 21, 19, 11, 12, 13, 14, 15, 6, 22, 18, 10, 7, 9, 17, 23][r]
  }

  lemma RotateInverse(p: Point3, r: nat)
    requires r < 24
    ensures Rotate(Rotate(p, r), Inverse(r)) == p
  {
    match r
    case 0 =>
    case 1 =>
    case 2 =>
    case 3 =>
    case 4 =>
    case 5 =>
    case 6 =>
    case 7 =>
    case 8 =>
    case 9 =>
    case 10 =>
    case 11 =>
    case 12 =>
    case 13 =>
    case 14 =>
    case 15 =>
    case 16 =>
    case 17 =>
    case 18 =>
    case 19 =>
    case 20 =>
    case 21 =>
    case 22 =>
    case 23 =>
    case _ =>
  }

  /** Every rotation is linear, so it commutes with differences of points. */
  lemma RotateSub(p: Point3, q: Point3, r: nat)
    requires r < 24
    ensures Rotate(Sub(p, q), r) == Sub(Rotate(p, r), Rotate(q, r))
  {
    match r
    case 0 =>
    case 1 =>
    case 2 =>
    case 3 =>
    case 4 =>
    case 5 =>
    case 6 =>
    case 7 =>
    case 8 =>
    case 9 =>
    case 10 =>
    case 11 =>
    case 12 =>
    case 13 =>
    case 14 =>
    case 15 =>
    case 16 =>
    case 17 =>
    case 18 =>
    case 19 =>
    case 20 =>
    case 21 =>
    case 22 =>
    case 23 =>
    case _ =>
  }

  /** Every rotation keeps the Manhattan distance between two points. */
  lemma RotatePreservesDistance(p: Point3, q: Point3, r: nat)
    requires r < 24
    ensures Manhattan(Rotate(p, r), Rotate(q, r)) == Manhattan(p, q)
  {
    RotateSub(p, q, r);
  }

  /** Number of negative coordinates. */
  function Negatives(q: Point3): nat {
    (if q.x < 0 then 1 else 0) + (if q.y < 0 then 1 else 0) + (if q.z < 0 then 1 else 0)
  }

  /** Number of coordinate pairs whose magnitudes are out of order. */
  function Inversions(q: Point3): nat {
    (if Abs(q.x) > Abs(q.y) then 1 else 0) + (if Abs(q.x) > Abs(q.z) then 1 else 0) +
    (if Abs(q.y) > Abs(q.z) then 1 else 0)
  }

  /** The 24 orientations are proper rotations, not reflections: the
      determinant of a signed permutation is the sign of the permutation
      times the product of the signs, and both flip together here, as the
      image of (1, 2, 3) shows. With RotationsDistinct this makes them all
      24 rotations of the cube. */
  lemma RotationIsProper(r: nat)
    requires r < 24
    ensures (Negatives(Rotate(Point3(1, 2, 3), r)) + Inversions(Rotate(Point3(1, 2, 3), r))) % 2 == 0
  {
    match r
    case 0 =>
    case 1 =>
    case 2 =>
    case 3 =>
    case 4 =>
    case 5 =>
    case 6 =>
    case 7 =>
    case 8 =>
    case 9 =>
    case 10 =>
    case 11 =>
    case 12 =>
    case 13 =>
    case 14 =>
    case 15 =>
    case 16 =>
    case 17 =>
    case 18 =>
    case 19 =>
    case 20 =>
    case 21 =>
    case 22 =>
    case 23 =>
    case _ =>
  }

  /** The 24 orientations are pairwise different. */
  lemma RotationsDistinct(r1: nat, r2: nat)
    requires r1 < 24 && r2 < 24 && r1 != r2
    ensures Rotate(Point3(1, 2, 3), r1) != Rotate(Point3(1, 2, 3), r2)
  {
  }

  function RotateAll(beacons: seq<Point3>, r: nat): (rs: seq<Point3>)
    requires r < 24
    ensures |rs| == |beacons|
  {
    seq(|beacons|, i requires 0 <= i < |beacons| => Rotate(beacons[i], r))
  }

  function Translate(ps: seq<Point3>, d: Point3): (ts: seq<Point3>)
    ensures |ts| == |ps|
  {
    seq(|ps|, i requires 0 <= i < |ps| => Add(ps[i], d))
  }

  function Elements(ps: seq<Point3>): set<Point3> { set p | p in ps }

  /** The signature of a reading: the Manhattan distances over all unordered
      pairs of its beacons. */
  function DistanceSet(beacons: seq<Point3>): set<nat> {
    set i, j | 0 <= i < j < |beacons| :: Manhattan(beacons[i], beacons[j])
  }

  /** Two readings whose pairwise distances agree position by position have
      the same signature. */
  lemma SameDistancesSameSignature(a: seq<Point3>, b: seq<Point3>)
    requires |a| == |b|
    requires forall i, j :: 0 <= i < j < |a| ==> Manhattan(a[i], a[j]) == Manhattan(b[i], b[j])
    ensures DistanceSet(a) == DistanceSet(b)
  {
    forall n | n in DistanceSet(a) ensures n in DistanceSet(b) {
      var i, j :| 0 <= i < j < |a| && n == Manhattan(a[i], a[j]);
      assert n == Manhattan(b[i], b[j]);
    }
    forall n | n in DistanceSet(b) ensures n in DistanceSet(a) {
      var i, j :| 0 <= i < j < |b| && n == Manhattan(b[i], b[j]);
      assert n == Manhattan(a[i], a[j]);
    }
  }

  /** The signature does not depend on the orientation of the reading. */
  lemma DistanceSetRotationInvariant(beacons: seq<Point3>, r: nat)
    requires r < 24
    ensures DistanceSet(RotateAll(beacons, r)) == DistanceSet(beacons)
  {
    var rs := RotateAll(beacons, r);
    forall i, j | 0 <= i < j < |beacons|
      ensures Manhattan(rs[i], rs[j]) == Manhattan(beacons[i], beacons[j])
    {
      RotatePreservesDistance(beacons[i], beacons[j], r);
    }
    SameDistancesSameSignature(rs, beacons);
  }

  /** The signature does not depend on where the scanner stands. */
  lemma DistanceSetTranslationInvariant(beacons: seq<Point3>, d: Point3)
    ensures DistanceSet(Translate(beacons, d)) == DistanceSet(beacons)
  {
    var ts := Translate(beacons, d);
    forall i, j | 0 <= i < j < |beacons|
      ensures Manhattan(ts[i], ts[j]) == Manhattan(beacons[i], beacons[j])
    {
      assert Sub(ts[i], ts[j]) == Sub(beacons[i], beacons[j]);
    }
    SameDistancesSameSignature(ts, beacons);
  }

  /** One scanner's reading with its distance signature. */
  datatype ScannerReading = ScannerReading(beacons: seq<Point3>, distanceSet: set<nat>)

  function MakeReading(beacons: seq<Point3>): (r: ScannerReading)
    ensures r.beacons == beacons
    ensures forall i, j :: 0 <= i < j < |beacons| ==> Manhattan(beacons[i], beacons[j]) in r.distanceSet
    ensures forall n :: n in r.distanceSet ==> exists i, j :: 0 <= i < j < |beacons| && n == Manhattan(beacons[i], beacons[j])
  {
    ScannerReading(beacons, DistanceSet(beacons))
  }

  /** How many entries of `ps` (with repetitions) lie in `s`. */
  function CountIn(ps: seq<Point3>, s: set<Point3>): (n: nat)
    ensures n <= |ps|
  {
    if ps == [] then 0 else CountIn(ps[..|ps| - 1], s) + (if ps[|ps| - 1] in s then 1 else 0)
  }

  /** A reading whose every beacon is already known matches fully. */
  lemma {:induction false} CountInAll(ps: seq<Point3>, s: set<Point3>)
    requires forall i :: 0 <= i < |ps| ==> ps[i] in s
    ensures CountIn(ps, s) == |ps|
  {
    if ps != [] {
      CountInAll(ps[..|ps| - 1], s);
    }
  }

  /** A known beacon set that misses every entry matches nothing. */
  lemma {:induction false} CountInNone(ps: seq<Point3>, s: set<Point3>)
    requires forall i :: 0 <= i < |ps| ==> ps[i] !in s
    ensures CountIn(ps, s) == 0
  {
    if ps != [] {
      CountInNone(ps[..|ps| - 1], s);
    }
  }

  /** Translating the rotated beacons by `d` puts at least 12 of them on
      known beacons. */
  predicate Aligns(rotated: seq<Point3>, d: Point3, known: set<Point3>) {
    CountIn(Translate(rotated, d), known) >= MatchThreshold
  }

  /** No translation that carries one rotated beacon onto one known beacon
      aligns the rotated reading. */
  predicate NoAlignment(rotated: seq<Point3>, known: set<Point3>) {
    forall g, j :: g in known && 0 <= j < |rotated| ==> !Aligns(rotated, Sub(g, rotated[j]), known)
  }

  /** Number of distances two signatures have in common. */
  function Shared(a: set<nat>, b: set<nat>): nat { |a * b| }

  /** The pre-filter: some stored signature shares at least 66 distances. */
  predicate PreFilter(distanceSets: seq<set<nat>>, signature: set<nat>) {
    exists k :: 0 <= k < |distanceSets| && Shared(distanceSets[k], signature) >= SignatureThreshold
  }

  /** No orientation of the beacons lines up with the known ones. */
  predicate NoOrientationAligns(beacons: seq<Point3>, known: set<Point3>) {
    forall r :: 0 <= r < 24 ==> NoAlignment(RotateAll(beacons, r), known)
  }

  /** The reading cannot be merged into the current state. */
  predicate CannotMerge(reading: ScannerReading, distanceSets: seq<set<nat>>, known: set<Point3>) {
    !PreFilter(distanceSets, reading.distanceSet) || NoOrientationAligns(reading.beacons, known)
  }

  /** No reading of `rs` can be merged into the given state. */
  predicate AllCannotMerge(rs: seq<ScannerReading>, distanceSets: seq<set<nat>>, known: set<Point3>) {
    rs == [] || (CannotMerge(rs[0], distanceSets, known) && AllCannotMerge(rs[1..], distanceSets, known))
  }

  lemma {:induction false} AllCannotMergeEach(rs: seq<ScannerReading>, distanceSets: seq<set<nat>>, known: set<Point3>)
    requires AllCannotMerge(rs, distanceSets, known)
    ensures forall k :: 0 <= k < |rs| ==> CannotMerge(rs[k], distanceSets, known)
  {
    if rs != [] {
      AllCannotMergeEach(rs[1..], distanceSets, known);
      assert forall k :: 1 <= k < |rs| ==> rs[k] == rs[1..][k - 1];
    }
  }

  /** Removes entry `i` by moving the last entry into its place. */
  function SwapRemove<T>(s: seq<T>, i: nat): (r: seq<T>)
    requires i < |s|
    ensures |r| == |s| - 1
  {
    var last := |s| - 1;
    if i == last then s[..last] else s[..i] + [s[last]] + s[i + 1..last]
  }

  /** Swap-removing keeps every other entry: the removed one and what is
      left make up the original. */
  lemma SwapRemoveMultiset<T>(s: seq<T>, i: nat)
    requires i < |s|
    ensures multiset(SwapRemove(s, i)) + multiset{s[i]} == multiset(s)
  {
    var last := |s| - 1;
    if i == last {
      assert s == s[..last] + [s[last]];
    } else {
      assert s == s[..i] + [s[i]] + s[i + 1..last] + [s[last]];
    }
  }

  /** `rest` and `moved` together hold exactly the entries of `orig`. */
  predicate Moved<T(==)>(rest: seq<T>, moved: seq<T>, orig: seq<T>) {
    multiset(rest) + multiset(moved) == multiset(orig)
  }

  /** Moving entry `i` from `rs` to the end of `moved` keeps the multiset
      of both together. */
  lemma SwapRemoveMoves<T>(rs: seq<T>, moved: seq<T>, i: nat, orig: seq<T>)
    requires i < |rs| && Moved(rs, moved, orig)
    ensures Moved(SwapRemove(rs, i), moved + [rs[i]], orig)
  {
    SwapRemoveMultiset(rs, i);
    assert multiset(moved + [rs[i]]) == multiset(moved) + multiset{rs[i]};
  }

  /** Largest Manhattan distance between two entries at different positions;
      None when there is no such pair (the source unwraps and panics). */
  function MaxPairDistance(ps: seq<Point3>): Option<nat> {
    if |ps| < 2 then None
    else
      var head := MaxDistanceFrom(ps[0], ps[1..]);
      var rest := MaxPairDistance(ps[1..]);
      Some(if rest.None? || head >= rest.value then head else rest.value)
  }

  /** Largest distance from `p` to an entry of the non-empty `ps`. */
  function MaxDistanceFrom(p: Point3, ps: seq<Point3>): (m: nat)
    requires |ps| > 0
    ensures exists j :: 0 <= j < |ps| && m == Manhattan(p, ps[j])
    ensures forall j :: 0 <= j < |ps| ==> Manhattan(p, ps[j]) <= m
  {
    if |ps| == 1 then Manhattan(p, ps[0])
    else
      var rest := MaxDistanceFrom(p, ps[1..]);
      assert forall j :: 1 <= j < |ps| ==> ps[j] == ps[1..][j - 1];
      if Manhattan(p, ps[0]) >= rest then Manhattan(p, ps[0]) else rest
  }

  /** `m` is the largest distance between two entries of `ps` at different
      positions. */
  predicate IsMaxPairDistance(ps: seq<Point3>, m: nat) {
    (forall i, j :: 0 <= i < j < |ps| ==> Manhattan(ps[i], ps[j]) <= m) &&
    exists i, j :: 0 <= i < j < |ps| && m == Manhattan(ps[i], ps[j])
  }

  /** No pair is farther apart than MaxPairDistance. */
  lemma {:induction false} MaxPairDistanceBounds(ps: seq<Point3>)
    requires |ps| >= 2
    ensures forall i, j :: 0 <= i < j < |ps| ==> Manhattan(ps[i], ps[j]) <= MaxPairDistance(ps).value
  {
    var tail := ps[1..];
    var m := MaxPairDistance(ps).value;
    if |tail| >= 2 {
      MaxPairDistanceBounds(tail);
    }
    forall i, j | 0 <= i < j < |ps| ensures Manhattan(ps[i], ps[j]) <= m {
      if i == 0 {
        assert ps[j] == tail[j - 1];
      } else {
        assert Manhattan(tail[i - 1], tail[j - 1]) <= MaxPairDistance(tail).value;
      }
    }
  }

  /** MaxPairDistance is the distance of some pair. */
  lemma {:induction false} MaxPairDistanceAttained(ps: seq<Point3>)
    requires |ps| >= 2
    ensures exists i, j :: 0 <= i < j < |ps| && MaxPairDistance(ps).value == Manhattan(ps[i], ps[j])
  {
    var tail := ps[1..];
    var head := MaxDistanceFrom(ps[0], tail);
    var rest := MaxPairDistance(tail);
    var m := MaxPairDistance(ps).value;
    assert m == if rest.None? || head >= rest.value then head else rest.value;
    if rest.None? || head >= rest.value {
      var j :| 0 <= j < |tail| && head == Manhattan(ps[0], tail[j]);
      assert tail[j] == ps[j + 1];
      assert 0 <= 0 < j + 1 < |ps| && m == Manhattan(ps[0], ps[j + 1]);
    } else {
      MaxPairDistanceAttained(tail);
      var i, j :| 0 <= i < j < |tail| && rest.value == Manhattan(tail[i], tail[j]);
      assert tail[i] == ps[i + 1] && tail[j] == ps[j + 1];
      assert 0 <= i + 1 < j + 1 < |ps| && m == Manhattan(ps[i + 1], ps[j + 1]);
    }
  }

  /** MaxPairDistance is the maximum over all pairs, and exists iff there
      is a pair. */
  lemma MaxPairDistanceIsMax(ps: seq<Point3>)
    ensures MaxPairDistance(ps).None? <==> |ps| < 2
    ensures MaxPairDistance(ps).Some? ==> IsMaxPairDistance(ps, MaxPairDistance(ps).value)
  {
    if |ps| >= 2 {
      MaxPairDistanceBounds(ps);
      MaxPairDistanceAttained(ps);
    }
  }

  /** Counts the entries of `ps` that lie in `s`, as a filter-and-count. */
  method CountContained(ps: seq<Point3>, s: set<Point3>) returns (n: nat)
    ensures n == CountIn(ps, s)
  {
    n := 0;
    var k := 0;
    while k < |ps|
      invariant 0 <= k <= |ps|
      invariant n == CountIn(ps[..k], s)
    {
      assert ps[..k + 1][..k] == ps[..k];
      if ps[k] in s {
        n := n + 1;
      }
      k := k + 1;
    }
    assert ps[..k] == ps;
  }

  /** Counts the stored signatures sharing at least 66 distances with
      `signature` and reports whether there is one. */
  method PassesPreFilter(distanceSets: seq<set<nat>>, signature: set<nat>) returns (passes: bool)
    ensures passes <==> PreFilter(distanceSets, signature)
  {
    var intersections := 0;
    for k := 0 to |distanceSets|
      invariant intersections > 0 <==> exists k' :: 0 <= k' < k && Shared(distanceSets[k'], signature) >= SignatureThreshold
    {
      if Shared(distanceSets[k], signature) >= SignatureThreshold {
        intersections := intersections + 1;
      }
    }
    passes := intersections != 0;
  }

  /** Lists the elements of a set, each once, in an order the model leaves
      open (the iteration order of the source's hash set). */
  method Enumerate(s: set<Point3>) returns (order: seq<Point3>)
    ensures forall p :: p in s <==> p in order
  {
    order := [];
    var pending := s;
    while pending != {}
      invariant pending <= s
      invariant forall p :: p in s <==> p in order || p in pending
      decreases pending
    {
      var p :| p in pending;
      order := order + [p];
      pending := pending - {p};
    }
  }

  /** Tries every translation that carries one rotated beacon onto one
      known beacon, the known beacons in any order and the rotated beacons
      in order, and returns the first that aligns. */
  method SearchTranslation(rotated: seq<Point3>, known: set<Point3>) returns (d: Option<Point3>)
    ensures d.None? <==> NoAlignment(rotated, known)
    ensures d.Some? ==> Aligns(rotated, d.value, known)
    ensures d.Some? ==> exists g, j :: g in known && 0 <= j < |rotated| && d.value == Sub(g, rotated[j])
  {
    var order := Enumerate(known);
    for i := 0 to |order|
      invariant forall i', j :: 0 <= i' < i && 0 <= j < |rotated| ==> !Aligns(rotated, Sub(order[i'], rotated[j]), known)
    {
      for j := 0 to |rotated|
        invariant forall j' :: 0 <= j' < j ==> !Aligns(rotated, Sub(order[i], rotated[j']), known)
      {
        var delta := Sub(order[i], rotated[j]);
        var hits := CountContained(Translate(rotated, delta), known);
        if hits >= MatchThreshold {
          assert order[i] in known;
          return Some(delta);
        }
      }
    }
    forall g, j | g in known && 0 <= j < |rotated| ensures !Aligns(rotated, Sub(g, rotated[j]), known) {
      var i :| 0 <= i < |order| && order[i] == g;
    }
    return None;
  }

  /** Tries the 24 orientations in order; `rot` is the one that aligned. */
  method FindAlignment(beacons: seq<Point3>, known: set<Point3>) returns (d: Option<Point3>, rot: nat)
    ensures d.None? <==> NoOrientationAligns(beacons, known)
    ensures d.Some? ==> rot < 24 && Aligns(RotateAll(beacons, rot), d.value, known)
    ensures d.Some? ==>
      exists g, j :: g in known && 0 <= j < |beacons| && d.value == Sub(g, RotateAll(beacons, rot)[j])
    ensures d.Some? ==> forall r :: 0 <= r < rot ==> NoAlignment(RotateAll(beacons, r), known)
  {
    for r := 0 to 24
      invariant forall r' :: 0 <= r' < r ==> NoAlignment(RotateAll(beacons, r'), known)
    {
      d := SearchTranslation(RotateAll(beacons, r), known);
      if d.Some? {
        return d, r;
      }
    }
    return None, 0;
  }

  /** Tries to align `reading` with the known beacons (the source's
      associated function on the two mutable fields, here values in and
      out): the pre-filter first, then the orientations in order. On success
      the translated beacons and the reading's signature are added and the
      translation (the scanner's origin) is returned; otherwise both come
      back unchanged. `rot` is the orientation that was used. */
  method MergeReading(beaconLocations: set<Point3>, beaconDistanceSets: seq<set<nat>>, reading: ScannerReading)
    returns (d: Option<Point3>, locations: set<Point3>, distanceSets: seq<set<nat>>, ghost rot: nat)
    ensures d.None? <==> CannotMerge(reading, beaconDistanceSets, beaconLocations)
    ensures d.None? ==> locations == beaconLocations && distanceSets == beaconDistanceSets
    ensures d.Some? ==> rot < 24 && Aligns(RotateAll(reading.beacons, rot), d.value, beaconLocations)
    ensures d.Some? ==>
      exists g, j :: g in beaconLocations && 0 <= j < |reading.beacons| &&
                     d.value == Sub(g, RotateAll(reading.beacons, rot)[j])
    ensures d.Some? ==> forall r :: 0 <= r < rot ==> NoAlignment(RotateAll(reading.beacons, r), beaconLocations)
    ensures d.Some? ==> locations == beaconLocations + Elements(Translate(RotateAll(reading.beacons, rot), d.value))
    ensures d.Some? ==> distanceSets == beaconDistanceSets + [reading.distanceSet]
  {
    locations, distanceSets, rot := beaconLocations, beaconDistanceSets, 0;
    var passes := PassesPreFilter(beaconDistanceSets, reading.distanceSet);
    if !passes {
      return None, locations, distanceSets, rot;
    }
    var r;
    d, r := FindAlignment(reading.beacons, beaconLocations);
    rot := r;
    if d.Some? {
      locations := beaconLocations + Elements(Translate(RotateAll(reading.beacons, r), d.value));
      distanceSets := beaconDistanceSets + [reading.distanceSet];
    }
  }

  /** The signatures of `rs`, in order. */
  function Signatures(rs: seq<ScannerReading>): (sigs: seq<set<nat>>)
    ensures |sigs| == |rs|
  {
    if rs == [] then [] else Signatures(rs[..|rs| - 1]) + [rs[|rs| - 1].distanceSet]
  }

  lemma SignaturesAppend(rs: seq<ScannerReading>, r: ScannerReading)
    ensures Signatures(rs + [r]) == Signatures(rs) + [r.distanceSet]
  {
    assert (rs + [r])[..|rs|] == rs;
  }

  /** Tries pending reading `i`: a reading that merges is swap-removed
      from the queue, its beacons placed by orientation `rot` and offset
      `d`; one that does not leaves everything as it was. */
  method MergeStep(pending: seq<ScannerReading>, locations: set<Point3>, distanceSets: seq<set<nat>>, i: nat)
    returns (d: Option<Point3>, pending': seq<ScannerReading>, locations': set<Point3>, distanceSets': seq<set<nat>>,
             ghost rot: Orientation)
    requires i < |pending|
    ensures d.None? ==> CannotMerge(pending[i], distanceSets, locations)
    ensures d.None? ==> pending' == pending && locations' == locations && distanceSets' == distanceSets
    ensures d.Some? ==> pending' == SwapRemove(pending, i) && distanceSets' == distanceSets + [pending[i].distanceSet]
    ensures d.Some? ==> Aligns(RotateAll(pending[i].beacons, rot), d.value, locations)
    ensures d.Some? ==> locations' == locations + Elements(Translate(RotateAll(pending[i].beacons, rot), d.value))
  {
    ghost var r;
    d, locations', distanceSets', r := MergeReading(locations, distanceSets, pending[i]);
    rot := if r < 24 then r else 0;
    pending' := if d.Some? then SwapRemove(pending, i) else pending;
  }

  /** One of the 24 orientations. */
  type Orientation = r: nat | r < 24

  /** The beacons of the readings `ms`, the k-th turned by orientation
      `rots[k]` and moved by offset `ds[k]`. */
  ghost function Placed(ms: seq<ScannerReading>, rots: seq<Orientation>, ds: seq<Point3>): set<Point3>
    requires |rots| == |ms| && |ds| == |ms|
    decreases |ms|
  {
    if ms == [] then {}
    else
      var n := |ms| - 1;
      Placed(ms[..n], rots[..n], ds[..n]) + Elements(Translate(RotateAll(ms[n].beacons, rots[n]), ds[n]))
  }

  /** Each reading of `ms`, placed by its orientation and offset, puts at
      least 12 beacons onto the beacons known when it was merged: `known`
      and those of the readings merged before it. */
  ghost predicate AlignedChain(known: set<Point3>, ms: seq<ScannerReading>, rots: seq<Orientation>, ds: seq<Point3>)
    requires |rots| == |ms| && |ds| == |ms|
  {
    forall k :: 0 <= k < |ms| ==> AlignedAt(known, ms, rots, ds, k)
  }

  /** The k-th reading of `ms` aligns with the beacons known before it. */
  ghost predicate AlignedAt(known: set<Point3>, ms: seq<ScannerReading>, rots: seq<Orientation>, ds: seq<Point3>, k: nat)
    requires |rots| == |ms| && |ds| == |ms| && k < |ms|
  {
    Aligns(RotateAll(ms[k].beacons, rots[k]), ds[k], known + Placed(ms[..k], rots[..k], ds[..k]))
  }

  lemma PlacedAppend(ms: seq<ScannerReading>, rots: seq<Orientation>, ds: seq<Point3>, m: ScannerReading, r: Orientation, d: Point3)
    requires |rots| == |ms| && |ds| == |ms|
    ensures Placed(ms + [m], rots + [r], ds + [d]) == Placed(ms, rots, ds) + Elements(Translate(RotateAll(m.beacons, r), d))
  {
    assert (ms + [m])[..|ms|] == ms;
    assert (rots + [r])[..|ms|] == rots;
    assert (ds + [d])[..|ms|] == ds;
  }

  lemma AlignedAppend(known: set<Point3>, ms: seq<ScannerReading>, rots: seq<Orientation>, ds: seq<Point3>,
                      m: ScannerReading, r: Orientation, d: Point3)
    requires |rots| == |ms| && |ds| == |ms|
    requires AlignedChain(known, ms, rots, ds)
    requires Aligns(RotateAll(m.beacons, r), d, known + Placed(ms, rots, ds))
    ensures AlignedChain(known, ms + [m], rots + [r], ds + [d])
  {
    var ms', rots', ds' := ms + [m], rots + [r], ds + [d];
    forall k | 0 <= k < |ms'|
      ensures AlignedAt(known, ms', rots', ds', k)
    {
      if k < |ms| {
        assert AlignedAt(known, ms, rots, ds, k);
        assert ms'[..k] == ms[..k] && rots'[..k] == rots[..k] && ds'[..k] == ds[..k];
      } else {
        assert ms'[..k] == ms && rots'[..k] == rots && ds'[..k] == ds;
      }
    }
  }

  lemma {:induction false} PlacedConcat(ms: seq<ScannerReading>, rots: seq<Orientation>, ds: seq<Point3>,
                                         ms2: seq<ScannerReading>, rots2: seq<Orientation>, ds2: seq<Point3>)
    requires |rots| == |ms| && |ds| == |ms|
    requires |rots2| == |ms2| && |ds2| == |ms2|
    ensures Placed(ms + ms2, rots + rots2, ds + ds2) == Placed(ms, rots, ds) + Placed(ms2, rots2, ds2)
    decreases |ms2|
  {
    if ms2 == [] {
      assert ms + ms2 == ms && rots + rots2 == rots && ds + ds2 == ds;
    } else {
      var n := |ms2| - 1;
      PlacedConcat(ms, rots, ds, ms2[..n], rots2[..n], ds2[..n]);
      assert ms + ms2 == (ms + ms2[..n]) + [ms2[n]];
      assert rots + rots2 == (rots + rots2[..n]) + [rots2[n]];
      assert ds + ds2 == (ds + ds2[..n]) + [ds2[n]];
      PlacedAppend(ms + ms2[..n], rots + rots2[..n], ds + ds2[..n], ms2[n], rots2[n], ds2[n]);
    }
  }

  lemma AlignedConcat(known: set<Point3>, ms: seq<ScannerReading>, rots: seq<Orientation>, ds: seq<Point3>,
                      ms2: seq<ScannerReading>, rots2: seq<Orientation>, ds2: seq<Point3>)
    requires |rots| == |ms| && |ds| == |ms|
    requires |rots2| == |ms2| && |ds2| == |ms2|
    requires AlignedChain(known, ms, rots, ds)
    requires AlignedChain(known + Placed(ms, rots, ds), ms2, rots2, ds2)
    ensures AlignedChain(known, ms + ms2, rots + rots2, ds + ds2)
  {
    var ms', rots', ds' := ms + ms2, rots + rots2, ds + ds2;
    forall k | 0 <= k < |ms'|
      ensures AlignedAt(known, ms', rots', ds', k)
    {
      if k < |ms| {
        assert AlignedAt(known, ms, rots, ds, k);
        assert ms'[..k] == ms[..k] && rots'[..k] == rots[..k] && ds'[..k] == ds[..k];
      } else {
        var j := k - |ms|;
        assert AlignedAt(known + Placed(ms, rots, ds), ms2, rots2, ds2, j);
        assert ms'[..k] == ms + ms2[..j] && rots'[..k] == rots + rots2[..j] && ds'[..k] == ds + ds2[..j];
        PlacedConcat(ms, rots, ds, ms2[..j], rots2[..j], ds2[..j]);
        assert known + Placed(ms'[..k], rots'[..k], ds'[..k])
            == (known + Placed(ms, rots, ds)) + Placed(ms2[..j], rots2[..j], ds2[..j]);
        assert ms'[k] == ms2[j] && rots'[k] == rots2[j] && ds'[k] == ds2[j];
      }
    }
  }

  lemma {:induction false} SignaturesConcat(rs: seq<ScannerReading>, more: seq<ScannerReading>)
    ensures Signatures(rs + more) == Signatures(rs) + Signatures(more)
    decreases |more|
  {
    if more == [] {
      assert rs + more == rs;
    } else {
      var last := more[|more| - 1];
      var init := more[..|more| - 1];
      assert rs + more == (rs + init) + [last];
      assert more == init + [last];
      SignaturesConcat(rs, init);
      SignaturesAppend(rs + init, last);
      SignaturesAppend(init, last);
    }
  }

  /** One pass of the merge loop: visits the pending readings from the last
      to the first and swap-removes every one that merges; `found` holds the
      origins of the merged scanners in merge order and `rots` their
      orientations. */
  method MergePass(pending: seq<ScannerReading>, locations: set<Point3>, distanceSets: seq<set<nat>>)
    returns (pending': seq<ScannerReading>, locations': set<Point3>, distanceSets': seq<set<nat>>,
             found: seq<Point3>, ghost mergedNow: seq<ScannerReading>, ghost rots: seq<Orientation>)
    ensures Moved(pending', mergedNow, pending)
    ensures |found| == |mergedNow| && |rots| == |mergedNow|
    ensures locations' == locations + Placed(mergedNow, rots, found)
    ensures AlignedChain(locations, mergedNow, rots, found)
    ensures distanceSets' == distanceSets + Signatures(mergedNow)
    ensures found == [] ==> pending' == pending && locations' == locations && distanceSets' == distanceSets
    ensures found == [] ==> AllCannotMerge(pending, distanceSets, locations)
  {
    pending', locations', distanceSets' := pending, locations, distanceSets;
    mergedNow, found, rots := [], [], [];
    var i := |pending'|;
    while i > 0
      invariant 0 <= i <= |pending'|
      invariant Moved(pending', mergedNow, pending)
      invariant |found| == |mergedNow| && |rots| == |mergedNow|
      invariant locations' == locations + Placed(mergedNow, rots, found)
      invariant AlignedChain(locations, mergedNow, rots, found)
      invariant distanceSets' == distanceSets + Signatures(mergedNow)
      invariant found == [] ==> pending' == pending && locations' == locations && distanceSets' == distanceSets
      invariant found == [] ==> AllCannotMerge(pending[i..], distanceSets, locations)
    {
      i := i - 1;
      ghost var before, sets, known := pending', distanceSets', locations';
      var d;
      ghost var rot;
      d, pending', locations', distanceSets', rot := MergeStep(pending', locations', distanceSets', i);
      assert before[i..][1..] == before[i + 1..];
      if d.Some? {
        SwapRemoveMoves(before, mergedNow, i, pending);
        SignaturesAppend(mergedNow, before[i]);
        assert distanceSets' == distanceSets + Signatures(mergedNow + [before[i]]) by {
          assert sets + [before[i].distanceSet] == distanceSets + (Signatures(mergedNow) + [before[i].distanceSet]);
        }
        PlacedAppend(mergedNow, rots, found, before[i], rot, d.value);
        AlignedAppend(locations, mergedNow, rots, found, before[i], rot, d.value);
        found := found + [d.value];
        mergedNow := mergedNow + [before[i]];
        rots := rots + [rot];
      }
    }
  }

  /** The merge loop: repeats passes until no reading is pending. `dists`
      starts with the anchor's origin (0, 0, 0) and gains the origin of every
      merged scanner. A pass that merges nothing leaves everything as it
      was, so every later pass would repeat it without end: the model stops
      there and answers `converged == false` (the source loops forever).
      The k-th merged reading was placed by orientation `rots[k]` and
      offset `dists[k + 1]`. */
  method MergeAll(readings: seq<ScannerReading>, locations: set<Point3>, distanceSets: seq<set<nat>>)
    returns (converged: bool, pending: seq<ScannerReading>, locations': set<Point3>, distanceSets': seq<set<nat>>,
             dists: seq<Point3>, ghost merged: seq<ScannerReading>, ghost rots: seq<Orientation>)
    ensures multiset(pending) + multiset(merged) == multiset(readings)
    ensures converged <==> pending == []
    ensures !converged ==> forall k :: 0 <= k < |pending| ==> CannotMerge(pending[k], distanceSets', locations')
    ensures distanceSets' == distanceSets + Signatures(merged)
    ensures |dists| == 1 + |merged| && dists[0] == Point3(0, 0, 0) && |rots| == |merged|
    ensures locations' == locations + Placed(merged, rots, dists[1..])
    ensures AlignedChain(locations, merged, rots, dists[1..])
  {
    pending, locations', distanceSets' := readings, locations, distanceSets;
    dists := [Point3(0, 0, 0)];
    merged, rots := [], [];
    converged := true;
    while converged && pending != []
      invariant multiset(pending) + multiset(merged) == multiset(readings)
      invariant converged || pending != []
      invariant !converged ==> AllCannotMerge(pending, distanceSets', locations')
      invariant distanceSets' == distanceSets + Signatures(merged)
      invariant |dists| == 1 + |merged| && dists[0] == Point3(0, 0, 0) && |rots| == |merged|
      invariant locations' == locations + Placed(merged, rots, dists[1..])
      invariant AlignedChain(locations, merged, rots, dists[1..])
      decreases converged, |pending|
    {
      ghost var before := pending;
      var found;
      ghost var mergedNow, rotsNow;
      pending, locations', distanceSets', found, mergedNow, rotsNow := MergePass(pending, locations', distanceSets');
      if found == [] {
        converged := false;
      } else {
        assert |multiset(pending)| < |multiset(before)|;
        SignaturesConcat(merged, mergedNow);
        PlacedConcat(merged, rots, dists[1..], mergedNow, rotsNow, found);
        AlignedConcat(locations, merged, rots, dists[1..], mergedNow, rotsNow, found);
        assert (dists + found)[1..] == dists[1..] + found;
        merged := merged + mergedNow;
        rots := rots + rotsNow;
        dists := dists + found;
      }
    }
    if !converged {
      AllCannotMergeEach(pending, distanceSets', locations');
    }
  }

  /** The global frame under construction together with the readings still
      waiting to be merged into it. */
  class Plane3D {
    var readings: seq<ScannerReading>
    var beaconLocations: set<Point3>
    var beaconDistanceSets: seq<set<nat>>
    var totalDistances: seq<Point3>

    /** Takes scanner 0 as the global frame and queues the others. */
    constructor (scans: seq<seq<Point3>>)
      requires |scans| > 0
      ensures |readings| == |scans| - 1
      ensures forall i :: 0 <= i < |readings| ==> readings[i] == MakeReading(scans[i + 1])
      ensures beaconLocations == Elements(scans[0])
      ensures beaconDistanceSets == [DistanceSet(scans[0])]
      ensures totalDistances == []
    {
      readings := seq(|scans| - 1, i requires 0 <= i < |scans| - 1 => MakeReading(scans[i + 1]));
      beaconLocations := Elements(scans[0]);
      beaconDistanceSets := [DistanceSet(scans[0])];
      totalDistances := [];
    }

    /** Number of distinct beacons found so far. */
    function Part1(): (n: nat)
      reads this
      ensures n == |beaconLocations|
    {
      |beaconLocations|
    }

    /** Largest Manhattan distance between two recovered scanner origins. */
    function Part2(): (m: Option<nat>)
      reads this
      ensures m.None? <==> |totalDistances| < 2
      ensures m.Some? ==> forall i, j :: 0 <= i < j < |totalDistances| ==>
        Manhattan(totalDistances[i], totalDistances[j]) <= m.value
      ensures m.Some? ==>
        exists i, j :: 0 <= i < j < |totalDistances| && m.value == Manhattan(totalDistances[i], totalDistances[j])
    {
      MaxPairDistanceIsMax(totalDistances);
      MaxPairDistance(totalDistances)
    }

    /** Merges readings until none is left, then records the origins, the
        anchor's (0, 0, 0) first. See MergeAll for the case where a pass
        merges nothing: the state is then left as that pass found it and
        no origin is recorded. The k-th merged reading was placed by
        orientation `rots[k]` and offset `offsets[k]`. */
    method MergeAllReadings() returns (converged: bool, ghost merged: seq<ScannerReading>,
                                       ghost rots: seq<Orientation>, ghost offsets: seq<Point3>)
      modifies this
      ensures multiset(readings) + multiset(merged) == multiset(old(readings))
      ensures converged <==> readings == []
      ensures !converged ==> forall k :: 0 <= k < |readings| ==>
        CannotMerge(readings[k], beaconDistanceSets, beaconLocations)
      ensures |rots| == |merged| && |offsets| == |merged|
      ensures beaconLocations == old(beaconLocations) + Placed(merged, rots, offsets)
      ensures AlignedChain(old(beaconLocations), merged, rots, offsets)
      ensures beaconDistanceSets == old(beaconDistanceSets) + Signatures(merged)
      ensures converged ==> totalDistances == old(totalDistances) + [Point3(0, 0, 0)] + offsets
      ensures !converged ==> totalDistances == old(totalDistances)
    {
      var dists;
      converged, readings, beaconLocations, beaconDistanceSets, dists, merged, rots :=
        MergeAll(readings, beaconLocations, beaconDistanceSets);
      offsets := dists[1..];
      if converged {
        assert dists == [Point3(0, 0, 0)] + offsets;
        totalDistances := totalDistances + dists;
      }
    }
  }

  /** The readings queued behind scanner 0, in input order. */
  function Queued(scans: seq<seq<Point3>>): (rs: seq<ScannerReading>)
    requires |scans| > 0
    ensures |rs| == |scans| - 1
    ensures forall i :: 0 <= i < |rs| ==> rs[i].beacons == scans[i + 1]
  {
    seq(|scans| - 1, i requires 0 <= i < |scans| - 1 => MakeReading(scans[i + 1]))
  }

  /** The puzzle on parsed scans: scanner 0 fixes the frame, every other
      reading is merged into it, then both answers are read off the frame.
      Part 1 counts the union of scanner 0's beacons with every merged
      reading's beacons placed by its orientation and offset. */
  method Run(scans: seq<seq<Point3>>)
    returns (converged: bool, part1: nat, part2: Option<nat>,
             ghost merged: seq<ScannerReading>, ghost rots: seq<Orientation>, ghost offsets: seq<Point3>)
    requires |scans| > 0
    ensures converged ==> multiset(merged) == multiset(Queued(scans))
    ensures multiset(merged) <= multiset(Queued(scans))
    ensures |rots| == |merged| && |offsets| == |merged|
    ensures part1 == |Elements(scans[0]) + Placed(merged, rots, offsets)|
    ensures AlignedChain(Elements(scans[0]), merged, rots, offsets)
    ensures converged ==> part2 == MaxPairDistance([Point3(0, 0, 0)] + offsets)
    ensures !converged ==> part2.None?
  {
    var plane := new Plane3D(scans);
    assert plane.readings == Queued(scans);
    converged, merged, rots, offsets := plane.MergeAllReadings();
    part1 := plane.Part1();
    part2 := plane.Part2();
  }
}
