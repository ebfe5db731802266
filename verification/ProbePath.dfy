/** The path of a hash through the table, slot by slot: a permutation of all slots. */
module ProbePaths {
  import opened Probing

  /** The slot reached from position `p` after `k` steps around its bucket. */
  function Around(p: nat, k: nat): (s: nat)
    requires k < 8
    ensures s / 8 == p / 8
  {
    var o := p % 8;
    if o + k < 8 then p + k else p + k - 8
  }

  /** The slot looked at by probe number `j`: the rest of the bucket first, then its front. */
  function Probe(h: nat, n: nat, j: nat): (s: nat)
    requires TableSize(n)
    ensures s < n
  {
    TableSizeFacts(n);
    var p := Home(h, n, j / 8);
    Around(p, j % 8)
  }

  /** Slots `lo..hi` of the bucket at `base` are one of the two halves that round `r` scans:
      from the offset of the position to the end, or from 0 to the offset. `j0` probes come before. */
  ghost predicate HalfBucket(h: nat, n: nat, r: nat, base: nat, lo: nat, hi: nat, j0: nat)
    requires n > 0
  {
    var p := Home(h, n, r);
    && base == p - p % 8
    && ((lo == p % 8 && hi == 8 && j0 == 8 * r) || (lo == 0 && hi == p % 8 && j0 == 8 * r + 8 - p % 8))
  }

  lemma HalfBucketProbe(h: nat, n: nat, r: nat, base: nat, lo: nat, hi: nat, j0: nat, z: nat, j: nat)
    requires TableSize(n) && HalfBucket(h, n, r, base, lo, hi, j0) && lo <= z < hi && j == j0 + (z - lo)
    ensures Probe(h, n, j) == base + z
  {}

  lemma {:induction false} ProbeInjective(h: nat, n: nat, i: nat, j: nat)
    requires TableSize(n) && i < j < n
    ensures Probe(h, n, i) != Probe(h, n, j)
  {
    TableSizeFacts(n);
    if i / 8 < j / 8 {
      HomeInjective(h, n, i / 8, j / 8);
    }
  }

  /** Every slot is looked at within the first `n` probes, that is within `n / 8` rounds. */
  lemma {:induction false} ProbeSurjective(h: nat, n: nat, s: nat)
    requires TableSize(n) && s < n
    ensures exists j: nat :: j < n && Probe(h, n, j) == s
  {
    var visited := seq(n, (j: nat) requires j < n => Probe(h, n, j));
    forall i: nat, j: nat | i < j < n ensures visited[i] != visited[j] {
      ProbeInjective(h, n, i, j);
    }
    Pigeonhole(visited);
    assert s in visited;
    var j: nat :| j < n && visited[j] == s;
    assert Probe(h, n, j) == s;
  }

  /** How many probes come before slot `s` on the path of hash `h`. */
  ghost function Rank(h: nat, n: nat, s: nat): (j: nat)
    requires TableSize(n) && s < n
    ensures j < n && Probe(h, n, j) == s
  {
    ProbeSurjective(h, n, s);
    var j: nat :| j < n && Probe(h, n, j) == s;
    j
  }

  /** `Rank` and `Probe` are inverse: the first `n` probes are a permutation of the slots. */
  lemma {:induction false} RankOfProbe(h: nat, n: nat, j: nat)
    requires TableSize(n) && j < n
    ensures Rank(h, n, Probe(h, n, j)) == j
  {
    var k := Rank(h, n, Probe(h, n, j));
    if k < j { ProbeInjective(h, n, k, j); }
    if j < k { ProbeInjective(h, n, j, k); }
  }

  // ---------------------------------------------------------------- pigeonhole

  lemma {:induction false} Pigeonhole(s: seq<nat>)
    requires forall j :: 0 <= j < |s| ==> s[j] < |s|
    requires forall i, j :: 0 <= i < j < |s| ==> s[i] != s[j]
    ensures forall x: nat :: x < |s| ==> x in s
  {
    var range := Below(|s|);
    DistinctCardinality(s);
    var missing := range - Elements(s);
    assert range == Elements(s) + missing;
    assert |range| == |Elements(s)| + |missing|;
    forall x: nat | x < |s| ensures x in s {
      assert x in range && x !in missing;
    }
  }

  function Elements(s: seq<nat>): set<nat> {
    set x | x in s
  }

  function Below(n: nat): (r: set<nat>)
    ensures |r| == n
    ensures forall x: nat :: x in r <==> x < n
  {
    if n == 0 then {} else Below(n - 1) + {n - 1}
  }

  lemma {:induction false} DistinctCardinality(s: seq<nat>)
    requires forall i, j :: 0 <= i < j < |s| ==> s[i] != s[j]
    ensures |Elements(s)| == |s|
  {
    if s != [] {
      var t := s[1..];
      DistinctCardinality(t);
      assert s == [s[0]] + t;
      assert Elements(s) == Elements(t) + {s[0]};
      assert s[0] !in t;
    }
  }
}
