// Tuning Trouble: the start-of-packet marker (four bytes) and the
// start-of-message marker (fourteen bytes) of a datastream are the first
// windows whose bytes are all different; the answer is the number of bytes
// read up to the end of that window.

module TuningTrouble {
  import opened Wrappers

  newtype byte = b: int | 0 <= b < 256

  /** The bytes of an ASCII string, as `as_bytes` gives them. */
  function Ascii(s: string): (bs: seq<byte>)
    requires forall i :: 0 <= i < |s| ==> s[i] as int < 128
    ensures |bs| == |s|
  {
    seq(|s|, i requires 0 <= i < |s| => s[i] as int as byte)
  }

  /** The check of `core` as written: no byte appears again after itself
      in the window. */
  predicate NoRepeats(w: seq<byte>) {
    w == [] || (w[0] !in w[1..] && NoRepeats(w[1..]))
  }

  /** The set of the bytes of a window. */
  function Elements(w: seq<byte>): (e: set<byte>)
    ensures |e| <= |w|
    ensures forall x :: x in e <==> x in w
  {
    if w == [] then {} else {w[0]} + Elements(w[1..])
  }

  /** The check holds exactly when no two positions hold the same byte. */
  lemma {:induction false} NoRepeatsPairwise(w: seq<byte>)
    ensures NoRepeats(w) <==> forall i, j :: 0 <= i < j < |w| ==> w[i] != w[j]
  {
    if w != [] {
      NoRepeatsPairwise(w[1..]);
      if NoRepeats(w) {
        forall i, j | 0 <= i < j < |w|
          ensures w[i] != w[j]
        {
          if i == 0 {
            assert w[j] == w[1..][j - 1];
          } else {
            assert w[i] == w[1..][i - 1] && w[j] == w[1..][j - 1];
          }
        }
      } else if w[0] in w[1..] {
        var j :| 1 <= j < |w| && w[j] == w[0];
      } else {
        var i, j :| 0 <= i < j < |w[1..]| && w[1..][i] == w[1..][j];
        assert w[i + 1] == w[j + 1];
      }
    }
  }

  /** ... and exactly when the window holds as many different bytes as it
      is long. */
  lemma {:induction false} NoRepeatsCardinality(w: seq<byte>)
    ensures NoRepeats(w) <==> |Elements(w)| == |w|
  {
    if w != [] {
      NoRepeatsCardinality(w[1..]);
      if w[0] in w[1..] {
        assert {w[0]} + Elements(w[1..]) == Elements(w[1..]);
      }
    }
  }

  /** The window of `d` bytes starting at `q` has no repeats. */
  predicate Marker(s: seq<byte>, q: nat, d: nat) {
    q + d <= |s| && NoRepeats(s[q..q + d])
  }

  /** The `d` bytes ending at `e` are all different: an independent
      statement of what a marker is. */
  predicate MarkerEndsAt(s: seq<byte>, e: nat, d: nat) {
    d <= e <= |s| && forall i, j :: e - d <= i < j < e ==> s[i] != s[j]
  }

  lemma MarkerAgrees(s: seq<byte>, q: nat, d: nat)
    ensures Marker(s, q, d) <==> MarkerEndsAt(s, q + d, d)
  {
    if q + d <= |s| {
      var w := s[q..q + d];
      NoRepeatsPairwise(w);
      if NoRepeats(w) {
        forall i, j | q <= i < j < q + d
          ensures s[i] != s[j]
        {
          assert s[i] == w[i - q] && s[j] == w[j - q];
        }
      } else {
        var i, j :| 0 <= i < j < d && w[i] == w[j];
        assert s[q + i] == s[q + j];
      }
    }
  }

  /** The search of `core`: the first window of `d` bytes, starting at or
      after `k`, that has no repeats. */
  function FindFrom(s: seq<byte>, d: nat, k: nat): (r: Option<nat>)
    ensures r.Some? ==> k <= r.value && Marker(s, r.value, d)
    ensures r.Some? ==> forall q :: k <= q < r.value ==> !Marker(s, q, d)
    ensures r.None? ==> forall q :: k <= q ==> !Marker(s, q, d)
    decreases |s| - k
  {
    if k + d > |s| then None
    else if Marker(s, k, d) then Some(k)
    else FindFrom(s, d, k + 1)
  }

  /** `core`: the index of the first window of `d` bytes without repeats,
      plus `d`; `None` where the `unwrap` panics because there is none.
      `windows(0)` panics, so `d` is at least 1. */
  function Core(s: seq<byte>, d: nat): (r: Option<nat>)
    requires d >= 1
  {
    match FindFrom(s, d, 0)
    case Some(k) => Some(k + d)
    case None => None
  }

  /** The marker ends at the result: the `d` bytes before it are all
      different and no earlier end has that property; there is no result
      exactly when no window of `d` bytes is free of repeats. */
  lemma CoreMarker(s: seq<byte>, d: nat)
    requires d >= 1
    ensures Core(s, d).Some? ==> d <= Core(s, d).value && MarkerEndsAt(s, Core(s, d).value, d)
    ensures Core(s, d).Some? ==> forall e: nat :: e < Core(s, d).value ==> !MarkerEndsAt(s, e, d)
    ensures Core(s, d).None? <==> forall e: nat :: !MarkerEndsAt(s, e, d)
  {
    var f := FindFrom(s, d, 0);
    if f.Some? {
      MarkerAgrees(s, f.value, d);
      forall e: nat | e < f.value + d
        ensures !MarkerEndsAt(s, e, d)
      {
        if d <= e {
          MarkerAgrees(s, e - d, d);
        }
      }
    } else {
      forall e: nat
        ensures !MarkerEndsAt(s, e, d)
      {
        if d <= e {
          MarkerAgrees(s, e - d, d);
        }
      }
    }
  }

  /** `part1`: the start-of-packet marker. */
  function Part1(s: seq<byte>): Option<nat> {
    Core(s, 4)
  }

  /** `part2`: the start-of-message marker. */
  function Part2(s: seq<byte>): Option<nat> {
    Core(s, 14)
  }
}
