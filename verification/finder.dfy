/**
 * The coalition finder of the dashboard (TEST.py, lines 185-208).
 *
 * Given the parties in the order of the share table and their second-vote
 * shares, the finder walks every index pair `i < j` and, inside that, every
 * index triple `i < j < k`, keeps each combination whose combined share
 * reaches the threshold (50 in the dashboard) and finally ranks both lists by
 * share, largest first, with a stable sort.
 *
 * The lists the loops build are described by what they hold once the loops
 * have reached a given position: `PairRow(i, j)` holds the pairs `(i, b)`
 * with `b < j`, `PairsBefore(i)` every pair whose first index is below `i`;
 * for triples, `TripleRow(i, j, k)`, `TripleBlock(i, j)` and
 * `TriplesBefore(i)` do the same one level deeper. `FindCoalitions` is the
 * loop itself, proved to leave exactly `RankedPairs` and `RankedTriples`; the
 * lemmas state what those lists contain and in which order.
 */
module Finder {
  import opened Shares
  import opened Ranking

  /** The share a coalition needs to be listed by the dashboard, in percent. */
  const Majority: real := 50.0

  /** The tuple the finder stores for the parties at indices `i` and `j`. */
  function PairAt(parties: seq<string>, shares: seq<real>, i: nat, j: nat): Coalition
    requires |parties| == |shares| && i < |parties| && j < |parties|
  {
    Coalition([parties[i], parties[j]], shares[i] + shares[j])
  }

  /** The tuple the finder stores for the parties at indices `i`, `j` and `k`. */
  function TripleAt(parties: seq<string>, shares: seq<real>, i: nat, j: nat, k: nat): Coalition
    requires |parties| == |shares| && i < |parties| && j < |parties| && k < |parties|
  {
    Coalition([parties[i], parties[j], parties[k]], shares[i] + shares[j] + shares[k])
  }

  /** The qualifying pairs `(i, b)` with `i < b < j`, in the order the `j` loop appends them. */
  function PairRow(parties: seq<string>, shares: seq<real>, threshold: real, i: nat, j: nat): seq<Coalition>
    requires |parties| == |shares| && i < |parties| && j <= |parties|
    decreases j
  {
    if j <= i + 1 then []
    else
      PairRow(parties, shares, threshold, i, j - 1)
      + (if shares[i] + shares[j - 1] >= threshold then [PairAt(parties, shares, i, j - 1)] else [])
  }

  /** The two-party list once the `i` loop has finished its first `i` rounds. */
  function PairsBefore(parties: seq<string>, shares: seq<real>, threshold: real, i: nat): seq<Coalition>
    requires |parties| == |shares| && i <= |parties|
  {
    if i == 0 then []
    else PairsBefore(parties, shares, threshold, i - 1) + PairRow(parties, shares, threshold, i - 1, |parties|)
  }

  /** The qualifying triples `(i, j, c)` with `j < c < k`, in the order the `k` loop appends them. */
  function TripleRow(parties: seq<string>, shares: seq<real>, threshold: real, i: nat, j: nat, k: nat): seq<Coalition>
    requires |parties| == |shares| && i < j < |parties| && k <= |parties|
    decreases k
  {
    if k <= j + 1 then []
    else
      TripleRow(parties, shares, threshold, i, j, k - 1)
      + (if shares[i] + shares[j] + shares[k - 1] >= threshold then [TripleAt(parties, shares, i, j, k - 1)] else [])
  }

  /** The qualifying triples `(i, b, c)` with `b < j`, in the order the `j` loop appends them. */
  function TripleBlock(parties: seq<string>, shares: seq<real>, threshold: real, i: nat, j: nat): seq<Coalition>
    requires |parties| == |shares| && i < |parties| && j <= |parties|
    decreases j
  {
    if j <= i + 1 then []
    else TripleBlock(parties, shares, threshold, i, j - 1) + TripleRow(parties, shares, threshold, i, j - 1, |parties|)
  }

  /** The three-party list once the `i` loop has finished its first `i` rounds. */
  function TriplesBefore(parties: seq<string>, shares: seq<real>, threshold: real, i: nat): seq<Coalition>
    requires |parties| == |shares| && i <= |parties|
  {
    if i == 0 then []
    else TriplesBefore(parties, shares, threshold, i - 1) + TripleBlock(parties, shares, threshold, i - 1, |parties|)
  }

  /** The two-party list as the loops leave it, before sorting. */
  function GeneratedPairs(parties: seq<string>, shares: seq<real>, threshold: real): seq<Coalition>
    requires |parties| == |shares|
  {
    PairsBefore(parties, shares, threshold, |parties|)
  }

  /** The three-party list as the loops leave it, before sorting. */
  function GeneratedTriples(parties: seq<string>, shares: seq<real>, threshold: real): seq<Coalition>
    requires |parties| == |shares|
  {
    TriplesBefore(parties, shares, threshold, |parties|)
  }

  /** `moegliche_koalitionen_2er` after the sort. */
  function RankedPairs(parties: seq<string>, shares: seq<real>, threshold: real): seq<Coalition>
    requires |parties| == |shares|
  {
    SortByShareDesc(GeneratedPairs(parties, shares, threshold))
  }

  /** `moegliche_koalitionen_3er` after the sort. */
  function RankedTriples(parties: seq<string>, shares: seq<real>, threshold: real): seq<Coalition>
    requires |parties| == |shares|
  {
    SortByShareDesc(GeneratedTriples(parties, shares, threshold))
  }

  /**
   * The coalition finder: nested loops over `i < j` and `i < j < k` that
   * append every combination reaching `threshold`, then a stable sort of both
   * lists by share, largest first. The `j` loop, with the `k` loop inside
   * it, is `ScanFrom`.
   */
  method FindCoalitions(parties: seq<string>, shares: seq<real>, threshold: real)
    returns (pairs: seq<Coalition>, triples: seq<Coalition>)
    requires |parties| == |shares|
    ensures pairs == RankedPairs(parties, shares, threshold)
    ensures triples == RankedTriples(parties, shares, threshold)
  {
    pairs, triples := [], [];
    for i := 0 to |parties|
      invariant pairs == PairsBefore(parties, shares, threshold, i)
      invariant triples == TriplesBefore(parties, shares, threshold, i)
    {
      pairs, triples := ScanFrom(parties, shares, threshold, i, pairs, triples);
    }
    pairs := SortByShareDesc(pairs);
    triples := SortByShareDesc(triples);
  }

  /**
   * One round of the outer loop, for the first party `i`: the `j` loop
   * appends the qualifying pairs `(i, j)` and, through the `k` loop, the
   * qualifying triples `(i, j, k)`.
   */
  method ScanFrom(parties: seq<string>, shares: seq<real>, threshold: real, i: nat,
                  pairs0: seq<Coalition>, triples0: seq<Coalition>)
    returns (pairs: seq<Coalition>, triples: seq<Coalition>)
    requires |parties| == |shares| && i < |parties|
    ensures pairs == pairs0 + PairRow(parties, shares, threshold, i, |parties|)
    ensures triples == triples0 + TripleBlock(parties, shares, threshold, i, |parties|)
  {
    pairs, triples := pairs0, triples0;
    for j := i + 1 to |parties|
      invariant pairs == pairs0 + PairRow(parties, shares, threshold, i, j)
      invariant triples == triples0 + TripleBlock(parties, shares, threshold, i, j)
    {
      var sum := shares[i] + shares[j];
      if sum >= threshold {
        pairs := pairs + [Coalition([parties[i], parties[j]], sum)];
      }
      PairRowStep(parties, shares, threshold, i, j, pairs0, pairs);
      triples := ScanTriples(parties, shares, threshold, i, j, triples);
      TripleBlockStep(parties, shares, threshold, i, j, triples0, triples);
    }
  }

  lemma PairRowStep(parties: seq<string>, shares: seq<real>, threshold: real, i: nat, j: nat,
                    pairs0: seq<Coalition>, pairs: seq<Coalition>)
    requires |parties| == |shares| && i < j < |parties|
    requires pairs == pairs0 + PairRow(parties, shares, threshold, i, j)
                      + (if shares[i] + shares[j] >= threshold then [PairAt(parties, shares, i, j)] else [])
    ensures pairs == pairs0 + PairRow(parties, shares, threshold, i, j + 1)
  {
  }

  lemma TripleBlockStep(parties: seq<string>, shares: seq<real>, threshold: real, i: nat, j: nat,
                        triples0: seq<Coalition>, triples: seq<Coalition>)
    requires |parties| == |shares| && i < j < |parties|
    requires triples == triples0 + TripleBlock(parties, shares, threshold, i, j)
                        + TripleRow(parties, shares, threshold, i, j, |parties|)
    ensures triples == triples0 + TripleBlock(parties, shares, threshold, i, j + 1)
  {
  }

  /** The innermost loop: appends the qualifying triples `(i, j, k)` for every `k > j`. */
  method ScanTriples(parties: seq<string>, shares: seq<real>, threshold: real, i: nat, j: nat,
                     triples0: seq<Coalition>)
    returns (triples: seq<Coalition>)
    requires |parties| == |shares| && i < j < |parties|
    ensures triples == triples0 + TripleRow(parties, shares, threshold, i, j, |parties|)
  {
    triples := triples0;
    for k := j + 1 to |parties|
      invariant triples == triples0 + TripleRow(parties, shares, threshold, i, j, k)
    {
      var sum := shares[i] + shares[j] + shares[k];
      if sum >= threshold {
        triples := triples + [Coalition([parties[i], parties[j], parties[k]], sum)];
      }
    }
  }

  // ---------------------------------------------------------------------
  // What the lists contain
  // ---------------------------------------------------------------------

  /** A two-party coalition the finder may list: two parties in table order whose shares reach `threshold`. */
  ghost predicate QualifyingPair(parties: seq<string>, shares: seq<real>, threshold: real, c: Coalition)
    requires |parties| == |shares|
  {
    exists a, b :: 0 <= a < b < |parties| && c == PairAt(parties, shares, a, b) && c.share >= threshold
  }

  /** A three-party coalition the finder may list: three parties in table order whose shares reach `threshold`. */
  ghost predicate QualifyingTriple(parties: seq<string>, shares: seq<real>, threshold: real, c: Coalition)
    requires |parties| == |shares|
  {
    exists a, b, d :: 0 <= a < b < d < |parties| && c == TripleAt(parties, shares, a, b, d) && c.share >= threshold
  }

  lemma {:induction false} PairRowSound(parties: seq<string>, shares: seq<real>, threshold: real, i: nat, j: nat)
    requires |parties| == |shares| && i < |parties| && j <= |parties|
    ensures forall c :: c in PairRow(parties, shares, threshold, i, j) ==> QualifyingPair(parties, shares, threshold, c)
    decreases j
  {
    if j > i + 1 {
      PairRowSound(parties, shares, threshold, i, j - 1);
      forall c | c in PairRow(parties, shares, threshold, i, j) ensures QualifyingPair(parties, shares, threshold, c) {
        if c !in PairRow(parties, shares, threshold, i, j - 1) {
          assert c == PairAt(parties, shares, i, j - 1);
        }
      }
    }
  }

  lemma {:induction false} PairsBeforeSound(parties: seq<string>, shares: seq<real>, threshold: real, i: nat)
    requires |parties| == |shares| && i <= |parties|
    ensures forall c :: c in PairsBefore(parties, shares, threshold, i) ==> QualifyingPair(parties, shares, threshold, c)
  {
    if i > 0 {
      PairsBeforeSound(parties, shares, threshold, i - 1);
      PairRowSound(parties, shares, threshold, i - 1, |parties|);
    }
  }

  lemma {:induction false} TripleRowSound(parties: seq<string>, shares: seq<real>, threshold: real, i: nat, j: nat, k: nat)
    requires |parties| == |shares| && i < j < |parties| && k <= |parties|
    ensures forall c :: c in TripleRow(parties, shares, threshold, i, j, k) ==> QualifyingTriple(parties, shares, threshold, c)
    decreases k
  {
    if k > j + 1 {
      TripleRowSound(parties, shares, threshold, i, j, k - 1);
      forall c | c in TripleRow(parties, shares, threshold, i, j, k) ensures QualifyingTriple(parties, shares, threshold, c) {
        if c !in TripleRow(parties, shares, threshold, i, j, k - 1) {
          assert c == TripleAt(parties, shares, i, j, k - 1);
        }
      }
    }
  }

  lemma {:induction false} TripleBlockSound(parties: seq<string>, shares: seq<real>, threshold: real, i: nat, j: nat)
    requires |parties| == |shares| && i < |parties| && j <= |parties|
    ensures forall c :: c in TripleBlock(parties, shares, threshold, i, j) ==> QualifyingTriple(parties, shares, threshold, c)
    decreases j
  {
    if j > i + 1 {
      TripleBlockSound(parties, shares, threshold, i, j - 1);
      TripleRowSound(parties, shares, threshold, i, j - 1, |parties|);
    }
  }

  lemma {:induction false} TriplesBeforeSound(parties: seq<string>, shares: seq<real>, threshold: real, i: nat)
    requires |parties| == |shares| && i <= |parties|
    ensures forall c :: c in TriplesBefore(parties, shares, threshold, i) ==> QualifyingTriple(parties, shares, threshold, c)
  {
    if i > 0 {
      TriplesBeforeSound(parties, shares, threshold, i - 1);
      TripleBlockSound(parties, shares, threshold, i - 1, |parties|);
    }
  }

  lemma FewPartiesGenerateNothing(parties: seq<string>, shares: seq<real>, threshold: real)
    requires |parties| == |shares|
    ensures |parties| < 2 ==> GeneratedPairs(parties, shares, threshold) == []
    ensures |parties| < 3 ==> GeneratedTriples(parties, shares, threshold) == []
  {
    if |parties| == 1 {
      assert PairsBefore(parties, shares, threshold, 1) == PairRow(parties, shares, threshold, 0, 1) == [];
      assert TriplesBefore(parties, shares, threshold, 1) == TripleBlock(parties, shares, threshold, 0, 1) == [];
    } else if |parties| == 2 {
      assert TripleBlock(parties, shares, threshold, 0, 2) == TripleRow(parties, shares, threshold, 0, 1, 2) == [];
      assert TriplesBefore(parties, shares, threshold, 1) == TripleBlock(parties, shares, threshold, 0, 2);
      assert TriplesBefore(parties, shares, threshold, 2) == TripleBlock(parties, shares, threshold, 1, 2) == [];
    }
  }

  /** No two parties reach `threshold` together. */
  ghost predicate NoMajorityPair(shares: seq<real>, threshold: real)
  {
    forall a, b :: 0 <= a < b < |shares| ==> shares[a] + shares[b] < threshold
  }

  /** No three parties reach `threshold` together. */
  ghost predicate NoMajorityTriple(shares: seq<real>, threshold: real)
  {
    forall a, b, d :: 0 <= a < b < d < |shares| ==> shares[a] + shares[b] + shares[d] < threshold
  }

  lemma {:induction false} NoMajorityPairRow(parties: seq<string>, shares: seq<real>, threshold: real, i: nat, j: nat)
    requires |parties| == |shares| && i < |parties| && j <= |parties| && NoMajorityPair(shares, threshold)
    ensures PairRow(parties, shares, threshold, i, j) == []
    decreases j
  {
    if j > i + 1 {
      NoMajorityPairRow(parties, shares, threshold, i, j - 1);
    }
  }

  lemma {:induction false} NoMajorityPairsBefore(parties: seq<string>, shares: seq<real>, threshold: real, i: nat)
    requires |parties| == |shares| && i <= |parties| && NoMajorityPair(shares, threshold)
    ensures PairsBefore(parties, shares, threshold, i) == []
  {
    if i > 0 {
      NoMajorityPairsBefore(parties, shares, threshold, i - 1);
      NoMajorityPairRow(parties, shares, threshold, i - 1, |parties|);
    }
  }

  lemma {:induction false} NoMajorityTripleRow(parties: seq<string>, shares: seq<real>, threshold: real, i: nat, j: nat, k: nat)
    requires |parties| == |shares| && i < j < |parties| && k <= |parties| && NoMajorityTriple(shares, threshold)
    ensures TripleRow(parties, shares, threshold, i, j, k) == []
    decreases k
  {
    if k > j + 1 {
      NoMajorityTripleRow(parties, shares, threshold, i, j, k - 1);
    }
  }

  lemma {:induction false} NoMajorityTripleBlock(parties: seq<string>, shares: seq<real>, threshold: real, i: nat, j: nat)
    requires |parties| == |shares| && i < |parties| && j <= |parties| && NoMajorityTriple(shares, threshold)
    ensures TripleBlock(parties, shares, threshold, i, j) == []
    decreases j
  {
    if j > i + 1 {
      NoMajorityTripleBlock(parties, shares, threshold, i, j - 1);
      NoMajorityTripleRow(parties, shares, threshold, i, j - 1, |parties|);
    }
  }

  lemma {:induction false} NoMajorityTriplesBefore(parties: seq<string>, shares: seq<real>, threshold: real, i: nat)
    requires |parties| == |shares| && i <= |parties| && NoMajorityTriple(shares, threshold)
    ensures TriplesBefore(parties, shares, threshold, i) == []
  {
    if i > 0 {
      NoMajorityTriplesBefore(parties, shares, threshold, i - 1);
      NoMajorityTripleBlock(parties, shares, threshold, i - 1, |parties|);
    }
  }

  /**
   * When no two parties reach the threshold together, the two-party list is
   * empty, and the dashboard reports that no majority was found.
   */
  lemma NoMajorityNoPairs(parties: seq<string>, shares: seq<real>, threshold: real)
    requires |parties| == |shares| && NoMajorityPair(shares, threshold)
    ensures RankedPairs(parties, shares, threshold) == []
  {
    NoMajorityPairsBefore(parties, shares, threshold, |parties|);
  }

  /** When no three parties reach the threshold together, the three-party list is empty. */
  lemma NoMajorityNoTriples(parties: seq<string>, shares: seq<real>, threshold: real)
    requires |parties| == |shares| && NoMajorityTriple(shares, threshold)
    ensures RankedTriples(parties, shares, threshold) == []
  {
    NoMajorityTriplesBefore(parties, shares, threshold, |parties|);
  }

  /**
   * Soundness: every listed coalition names two parties at increasing
   * positions of the table, carries the sum of their shares and reaches the
   * threshold; with fewer than two parties nothing is listed.
   */
  lemma RankedPairsSound(parties: seq<string>, shares: seq<real>, threshold: real)
    requires |parties| == |shares|
    ensures forall c :: c in RankedPairs(parties, shares, threshold) ==> QualifyingPair(parties, shares, threshold, c)
    ensures |parties| < 2 ==> RankedPairs(parties, shares, threshold) == []
  {
    var generated := GeneratedPairs(parties, shares, threshold);
    var ranked := RankedPairs(parties, shares, threshold);
    PairsBeforeSound(parties, shares, threshold, |parties|);
    forall c | c in ranked ensures QualifyingPair(parties, shares, threshold, c) {
      SortKeepsOccurrences(generated, c);
    }
    FewPartiesGenerateNothing(parties, shares, threshold);
  }

  /**
   * Soundness: every listed coalition names three parties at increasing
   * positions of the table, carries the sum of their shares and reaches the
   * threshold; with fewer than three parties nothing is listed.
   */
  lemma RankedTriplesSound(parties: seq<string>, shares: seq<real>, threshold: real)
    requires |parties| == |shares|
    ensures forall c :: c in RankedTriples(parties, shares, threshold) ==> QualifyingTriple(parties, shares, threshold, c)
    ensures |parties| < 3 ==> RankedTriples(parties, shares, threshold) == []
  {
    var generated := GeneratedTriples(parties, shares, threshold);
    var ranked := RankedTriples(parties, shares, threshold);
    TriplesBeforeSound(parties, shares, threshold, |parties|);
    forall c | c in ranked ensures QualifyingTriple(parties, shares, threshold, c) {
      SortKeepsOccurrences(generated, c);
    }
    FewPartiesGenerateNothing(parties, shares, threshold);
  }

  // ---------------------------------------------------------------------
  // How often each combination is listed
  // ---------------------------------------------------------------------

  lemma PairAtInjective(parties: seq<string>, shares: seq<real>, a: nat, b: nat, a2: nat, b2: nat)
    requires |parties| == |shares| && Distinct(parties)
    requires a < |parties| && b < |parties| && a2 < |parties| && b2 < |parties|
    ensures PairAt(parties, shares, a, b) == PairAt(parties, shares, a2, b2) <==> a == a2 && b == b2
  {
    if PairAt(parties, shares, a, b) == PairAt(parties, shares, a2, b2) {
      assert parties[a] == PairAt(parties, shares, a2, b2).members[0] == parties[a2];
      assert parties[b] == PairAt(parties, shares, a2, b2).members[1] == parties[b2];
    }
  }

  lemma TripleAtInjective(parties: seq<string>, shares: seq<real>, a: nat, b: nat, d: nat, a2: nat, b2: nat, d2: nat)
    requires |parties| == |shares| && Distinct(parties)
    requires a < |parties| && b < |parties| && d < |parties| && a2 < |parties| && b2 < |parties| && d2 < |parties|
    ensures TripleAt(parties, shares, a, b, d) == TripleAt(parties, shares, a2, b2, d2) <==> a == a2 && b == b2 && d == d2
  {
    if TripleAt(parties, shares, a, b, d) == TripleAt(parties, shares, a2, b2, d2) {
      assert parties[a] == TripleAt(parties, shares, a2, b2, d2).members[0] == parties[a2];
      assert parties[b] == TripleAt(parties, shares, a2, b2, d2).members[1] == parties[b2];
      assert parties[d] == TripleAt(parties, shares, a2, b2, d2).members[2] == parties[d2];
    }
  }

  lemma {:induction false} PairRowCount(parties: seq<string>, shares: seq<real>, threshold: real, i: nat, j: nat, a: nat, b: nat)
    requires |parties| == |shares| && Distinct(parties) && i < |parties| && j <= |parties| && a < b < |parties|
    ensures Occurrences(PairRow(parties, shares, threshold, i, j), PairAt(parties, shares, a, b))
         == if a == i && b < j && shares[a] + shares[b] >= threshold then 1 else 0
    decreases j
  {
    if j > i + 1 {
      var x := PairAt(parties, shares, a, b);
      var last := if shares[i] + shares[j - 1] >= threshold then [PairAt(parties, shares, i, j - 1)] else [];
      PairRowCount(parties, shares, threshold, i, j - 1, a, b);
      OccurrencesAppend(PairRow(parties, shares, threshold, i, j - 1), last, x);
      PairAtInjective(parties, shares, a, b, i, j - 1);
    }
  }

  lemma {:induction false} PairsBeforeCount(parties: seq<string>, shares: seq<real>, threshold: real, i: nat, a: nat, b: nat)
    requires |parties| == |shares| && Distinct(parties) && i <= |parties| && a < b < |parties|
    ensures Occurrences(PairsBefore(parties, shares, threshold, i), PairAt(parties, shares, a, b))
         == if a < i && shares[a] + shares[b] >= threshold then 1 else 0
  {
    if i > 0 {
      PairsBeforeCount(parties, shares, threshold, i - 1, a, b);
      PairRowCount(parties, shares, threshold, i - 1, |parties|, a, b);
      OccurrencesAppend(PairsBefore(parties, shares, threshold, i - 1), PairRow(parties, shares, threshold, i - 1, |parties|),
                        PairAt(parties, shares, a, b));
    }
  }

  lemma {:induction false} TripleRowCount(parties: seq<string>, shares: seq<real>, threshold: real,
                                          i: nat, j: nat, k: nat, a: nat, b: nat, d: nat)
    requires |parties| == |shares| && Distinct(parties) && i < j < |parties| && k <= |parties| && a < b < d < |parties|
    ensures Occurrences(TripleRow(parties, shares, threshold, i, j, k), TripleAt(parties, shares, a, b, d))
         == if a == i && b == j && d < k && shares[a] + shares[b] + shares[d] >= threshold then 1 else 0
    decreases k
  {
    if k > j + 1 {
      var x := TripleAt(parties, shares, a, b, d);
      var last := if shares[i] + shares[j] + shares[k - 1] >= threshold then [TripleAt(parties, shares, i, j, k - 1)] else [];
      TripleRowCount(parties, shares, threshold, i, j, k - 1, a, b, d);
      OccurrencesAppend(TripleRow(parties, shares, threshold, i, j, k - 1), last, x);
      TripleAtInjective(parties, shares, a, b, d, i, j, k - 1);
    }
  }

  lemma {:induction false} TripleBlockCount(parties: seq<string>, shares: seq<real>, threshold: real,
                                            i: nat, j: nat, a: nat, b: nat, d: nat)
    requires |parties| == |shares| && Distinct(parties) && i < |parties| && j <= |parties| && a < b < d < |parties|
    ensures Occurrences(TripleBlock(parties, shares, threshold, i, j), TripleAt(parties, shares, a, b, d))
         == if a == i && b < j && shares[a] + shares[b] + shares[d] >= threshold then 1 else 0
    decreases j
  {
    if j > i + 1 {
      var x := TripleAt(parties, shares, a, b, d);
      var prev := TripleBlock(parties, shares, threshold, i, j - 1);
      var row := TripleRow(parties, shares, threshold, i, j - 1, |parties|);
      TripleBlockCount(parties, shares, threshold, i, j - 1, a, b, d);
      TripleRowCount(parties, shares, threshold, i, j - 1, |parties|, a, b, d);
      OccurrencesAppend(prev, row, x);
      assert TripleBlock(parties, shares, threshold, i, j) == prev + row;
    }
  }

  lemma {:induction false} TriplesBeforeCount(parties: seq<string>, shares: seq<real>, threshold: real,
                                              i: nat, a: nat, b: nat, d: nat)
    requires |parties| == |shares| && Distinct(parties) && i <= |parties| && a < b < d < |parties|
    ensures Occurrences(TriplesBefore(parties, shares, threshold, i), TripleAt(parties, shares, a, b, d))
         == if a < i && shares[a] + shares[b] + shares[d] >= threshold then 1 else 0
  {
    if i > 0 {
      TriplesBeforeCount(parties, shares, threshold, i - 1, a, b, d);
      TripleBlockCount(parties, shares, threshold, i - 1, |parties|, a, b, d);
      OccurrencesAppend(TriplesBefore(parties, shares, threshold, i - 1), TripleBlock(parties, shares, threshold, i - 1, |parties|),
                        TripleAt(parties, shares, a, b, d));
    }
  }

  /**
   * Completeness without duplicates: when the table lists every party once,
   * each pair of parties `a < b` is listed exactly once if their shares reach
   * the threshold (a sum equal to the threshold included) and not at all
   * otherwise.
   */
  lemma PairListedOnce(parties: seq<string>, shares: seq<real>, threshold: real, a: nat, b: nat)
    requires |parties| == |shares| && Distinct(parties) && a < b < |parties|
    ensures Occurrences(RankedPairs(parties, shares, threshold), PairAt(parties, shares, a, b))
         == if shares[a] + shares[b] >= threshold then 1 else 0
  {
    PairsBeforeCount(parties, shares, threshold, |parties|, a, b);
    SortKeepsOccurrences(GeneratedPairs(parties, shares, threshold), PairAt(parties, shares, a, b));
  }

  /**
   * Completeness without duplicates: each triple of parties `a < b < d` is
   * listed exactly once if their shares reach the threshold, whether or not
   * any pair inside it does, and not at all otherwise.
   */
  lemma TripleListedOnce(parties: seq<string>, shares: seq<real>, threshold: real, a: nat, b: nat, d: nat)
    requires |parties| == |shares| && Distinct(parties) && a < b < d < |parties|
    ensures Occurrences(RankedTriples(parties, shares, threshold), TripleAt(parties, shares, a, b, d))
         == if shares[a] + shares[b] + shares[d] >= threshold then 1 else 0
  {
    TriplesBeforeCount(parties, shares, threshold, |parties|, a, b, d);
    SortKeepsOccurrences(GeneratedTriples(parties, shares, threshold), TripleAt(parties, shares, a, b, d));
  }

  /** The comparison with the threshold is inclusive: a pair at exactly the threshold is listed. */
  lemma PairThresholdInclusive(parties: seq<string>, shares: seq<real>, threshold: real, a: nat, b: nat)
    requires |parties| == |shares| && Distinct(parties) && a < b < |parties|
    requires shares[a] + shares[b] == threshold
    ensures PairAt(parties, shares, a, b) in RankedPairs(parties, shares, threshold)
  {
    PairListedOnce(parties, shares, threshold, a, b);
    OccurrencesPositive(RankedPairs(parties, shares, threshold), PairAt(parties, shares, a, b));
  }

  /** The comparison with the threshold is inclusive: a triple at exactly the threshold is listed. */
  lemma TripleThresholdInclusive(parties: seq<string>, shares: seq<real>, threshold: real, a: nat, b: nat, d: nat)
    requires |parties| == |shares| && Distinct(parties) && a < b < d < |parties|
    requires shares[a] + shares[b] + shares[d] == threshold
    ensures TripleAt(parties, shares, a, b, d) in RankedTriples(parties, shares, threshold)
  {
    TripleListedOnce(parties, shares, threshold, a, b, d);
    OccurrencesPositive(RankedTriples(parties, shares, threshold), TripleAt(parties, shares, a, b, d));
  }

  // ---------------------------------------------------------------------
  // In which order the loops list the combinations
  // ---------------------------------------------------------------------

  /** The positions in the share table of the parties `names`. */
  function Positions(parties: seq<string>, names: seq<string>): (r: seq<nat>)
    ensures |r| == |names|
  {
    if names == [] then [] else [IndexOf(parties, names[0])] + Positions(parties, names[1..])
  }

  /** The table positions of the parties a coalition names. */
  function Key(parties: seq<string>, c: Coalition): seq<nat>
  {
    Positions(parties, c.members)
  }

  /** Lexicographic order on position lists: the order in which the nested loops visit index combinations. */
  predicate LexLess(u: seq<nat>, v: seq<nat>)
  {
    u != [] && v != [] && (u[0] < v[0] || (u[0] == v[0] && LexLess(u[1..], v[1..])))
  }

  /** The coalitions of `s` appear in the order in which the loops visit their parties' positions. */
  ghost predicate InGenerationOrder(parties: seq<string>, s: seq<Coalition>)
  {
    forall p, q :: 0 <= p < q < |s| ==> LexLess(Key(parties, s[p]), Key(parties, s[q]))
  }

  lemma {:induction false} LexLessAt(u: seq<nat>, v: seq<nat>, m: nat)
    requires m < |u| && m < |v| && u[..m] == v[..m] && u[m] < v[m]
    ensures LexLess(u, v)
  {
    if m > 0 {
      assert u[0] == u[..m][0] == v[..m][0] == v[0];
      assert u[1..][..m - 1] == u[..m][1..] == v[..m][1..] == v[1..][..m - 1];
      LexLessAt(u[1..], v[1..], m - 1);
    }
  }

  /** Keys that agree on their first entry are ordered by their second. */
  lemma LexLessSecond(u: seq<nat>, v: seq<nat>)
    requires |u| >= 2 && |v| >= 2 && u[0] == v[0] && u[1] < v[1]
    ensures LexLess(u, v)
  {
    assert u[..1] == v[..1];
    LexLessAt(u, v, 1);
  }

  /** Keys that agree on their first two entries are ordered by their third. */
  lemma LexLessThird(u: seq<nat>, v: seq<nat>)
    requires |u| >= 3 && |v| >= 3 && u[0] == v[0] && u[1] == v[1] && u[2] < v[2]
    ensures LexLess(u, v)
  {
    assert u[..2] == v[..2];
    LexLessAt(u, v, 2);
  }

  lemma PairKey(parties: seq<string>, shares: seq<real>, a: nat, b: nat)
    requires |parties| == |shares| && Distinct(parties) && a < |parties| && b < |parties|
    ensures Key(parties, PairAt(parties, shares, a, b)) == [a, b]
  {
    var names := [parties[a], parties[b]];
    IndexOfDistinct(parties, a);
    IndexOfDistinct(parties, b);
    assert names[1..] == [parties[b]] && names[1..][1..] == [];
    assert Positions(parties, names[1..]) == [b];
    assert Positions(parties, names) == [a] + [b];
  }

  lemma TripleKey(parties: seq<string>, shares: seq<real>, a: nat, b: nat, d: nat)
    requires |parties| == |shares| && Distinct(parties) && a < |parties| && b < |parties| && d < |parties|
    ensures Key(parties, TripleAt(parties, shares, a, b, d)) == [a, b, d]
  {
    var names := [parties[a], parties[b], parties[d]];
    IndexOfDistinct(parties, a);
    IndexOfDistinct(parties, b);
    IndexOfDistinct(parties, d);
    assert names[1..] == [parties[b], parties[d]] && names[1..][1..] == [parties[d]] && names[1..][1..][1..] == [];
    assert Positions(parties, names[1..][1..]) == [d];
    assert Positions(parties, names[1..]) == [b] + [d];
    assert Positions(parties, names) == [a] + [b, d];
  }

  lemma OrderedAppend(parties: seq<string>, s: seq<Coalition>, t: seq<Coalition>)
    requires InGenerationOrder(parties, s) && InGenerationOrder(parties, t)
    requires forall c, d :: c in s && d in t ==> LexLess(Key(parties, c), Key(parties, d))
    ensures InGenerationOrder(parties, s + t)
  {
    forall p, q | 0 <= p < q < |s + t|
      ensures LexLess(Key(parties, (s + t)[p]), Key(parties, (s + t)[q]))
    {
      if q < |s| {
        assert (s + t)[p] == s[p] && (s + t)[q] == s[q];
      } else if p >= |s| {
        assert (s + t)[p] == t[p - |s|] && (s + t)[q] == t[q - |s|];
      } else {
        assert (s + t)[p] in s && (s + t)[q] in t;
      }
    }
  }

  lemma {:induction false} PairRowOrdered(parties: seq<string>, shares: seq<real>, threshold: real, i: nat, j: nat)
    requires |parties| == |shares| && Distinct(parties) && i < |parties| && j <= |parties|
    ensures forall c :: c in PairRow(parties, shares, threshold, i, j) ==>
              |Key(parties, c)| == 2 && Key(parties, c)[0] == i && Key(parties, c)[1] < j
    ensures InGenerationOrder(parties, PairRow(parties, shares, threshold, i, j))
    decreases j
  {
    if j > i + 1 {
      var prev := PairRow(parties, shares, threshold, i, j - 1);
      var x := PairAt(parties, shares, i, j - 1);
      var last := if shares[i] + shares[j - 1] >= threshold then [x] else [];
      PairRowOrdered(parties, shares, threshold, i, j - 1);
      PairKey(parties, shares, i, j - 1);
      forall c, d | c in prev && d in last ensures LexLess(Key(parties, c), Key(parties, d)) {
        LexLessSecond(Key(parties, c), Key(parties, d));
      }
      OrderedAppend(parties, prev, last);
      assert PairRow(parties, shares, threshold, i, j) == prev + last;
    }
  }

  lemma {:induction false} PairsBeforeOrdered(parties: seq<string>, shares: seq<real>, threshold: real, i: nat)
    requires |parties| == |shares| && Distinct(parties) && i <= |parties|
    ensures forall c :: c in PairsBefore(parties, shares, threshold, i) ==> |Key(parties, c)| == 2 && Key(parties, c)[0] < i
    ensures InGenerationOrder(parties, PairsBefore(parties, shares, threshold, i))
  {
    if i > 0 {
      var prev := PairsBefore(parties, shares, threshold, i - 1);
      var row := PairRow(parties, shares, threshold, i - 1, |parties|);
      PairsBeforeOrdered(parties, shares, threshold, i - 1);
      PairRowOrdered(parties, shares, threshold, i - 1, |parties|);
      forall c, d | c in prev && d in row ensures LexLess(Key(parties, c), Key(parties, d)) {
        LexLessAt(Key(parties, c), Key(parties, d), 0);
      }
      OrderedAppend(parties, prev, row);
    }
  }

  lemma {:induction false} TripleRowOrdered(parties: seq<string>, shares: seq<real>, threshold: real, i: nat, j: nat, k: nat)
    requires |parties| == |shares| && Distinct(parties) && i < j < |parties| && k <= |parties|
    ensures forall c :: c in TripleRow(parties, shares, threshold, i, j, k) ==>
              |Key(parties, c)| == 3 && Key(parties, c)[0] == i && Key(parties, c)[1] == j && Key(parties, c)[2] < k
    ensures InGenerationOrder(parties, TripleRow(parties, shares, threshold, i, j, k))
    decreases k
  {
    if k > j + 1 {
      var prev := TripleRow(parties, shares, threshold, i, j, k - 1);
      var x := TripleAt(parties, shares, i, j, k - 1);
      var last := if shares[i] + shares[j] + shares[k - 1] >= threshold then [x] else [];
      TripleRowOrdered(parties, shares, threshold, i, j, k - 1);
      TripleKey(parties, shares, i, j, k - 1);
      forall c, d | c in prev && d in last ensures LexLess(Key(parties, c), Key(parties, d)) {
        LexLessThird(Key(parties, c), Key(parties, d));
      }
      OrderedAppend(parties, prev, last);
      assert TripleRow(parties, shares, threshold, i, j, k) == prev + last;
    }
  }

  lemma {:induction false} TripleBlockOrdered(parties: seq<string>, shares: seq<real>, threshold: real, i: nat, j: nat)
    requires |parties| == |shares| && Distinct(parties) && i < |parties| && j <= |parties|
    ensures forall c :: c in TripleBlock(parties, shares, threshold, i, j) ==>
              |Key(parties, c)| == 3 && Key(parties, c)[0] == i && Key(parties, c)[1] < j
    ensures InGenerationOrder(parties, TripleBlock(parties, shares, threshold, i, j))
    decreases j
  {
    if j > i + 1 {
      var prev := TripleBlock(parties, shares, threshold, i, j - 1);
      var row := TripleRow(parties, shares, threshold, i, j - 1, |parties|);
      TripleBlockOrdered(parties, shares, threshold, i, j - 1);
      TripleRowOrdered(parties, shares, threshold, i, j - 1, |parties|);
      forall c, d | c in prev && d in row ensures LexLess(Key(parties, c), Key(parties, d)) {
        LexLessSecond(Key(parties, c), Key(parties, d));
      }
      OrderedAppend(parties, prev, row);
    }
  }

  lemma {:induction false} TriplesBeforeOrdered(parties: seq<string>, shares: seq<real>, threshold: real, i: nat)
    requires |parties| == |shares| && Distinct(parties) && i <= |parties|
    ensures forall c :: c in TriplesBefore(parties, shares, threshold, i) ==> |Key(parties, c)| == 3 && Key(parties, c)[0] < i
    ensures InGenerationOrder(parties, TriplesBefore(parties, shares, threshold, i))
  {
    if i > 0 {
      var prev := TriplesBefore(parties, shares, threshold, i - 1);
      var block := TripleBlock(parties, shares, threshold, i - 1, |parties|);
      TriplesBeforeOrdered(parties, shares, threshold, i - 1);
      TripleBlockOrdered(parties, shares, threshold, i - 1, |parties|);
      forall c, d | c in prev && d in block ensures LexLess(Key(parties, c), Key(parties, d)) {
        LexLessAt(Key(parties, c), Key(parties, d), 0);
      }
      OrderedAppend(parties, prev, block);
    }
  }

  /** Keeping only the coalitions of one share keeps them in generation order. */
  lemma {:induction false} WithShareKeepsOrder(parties: seq<string>, s: seq<Coalition>, v: real)
    requires InGenerationOrder(parties, s)
    ensures InGenerationOrder(parties, WithShare(s, v))
  {
    if s != [] {
      var tail := s[1..];
      assert InGenerationOrder(parties, tail) by {
        forall p, q | 0 <= p < q < |tail| ensures LexLess(Key(parties, tail[p]), Key(parties, tail[q])) {
          assert tail[p] == s[p + 1] && tail[q] == s[q + 1];
        }
      }
      WithShareKeepsOrder(parties, tail, v);
      var head := if s[0].share == v then [s[0]] else [];
      forall c, d | c in head && d in WithShare(tail, v) ensures LexLess(Key(parties, c), Key(parties, d)) {
        WithShareMember(tail, v, d);
        var q :| 0 <= q < |tail| && tail[q] == d;
        assert s[q + 1] == d;
      }
      OrderedAppend(parties, head, WithShare(tail, v));
    }
  }

  /**
   * Ties keep the generation order: among the ranked two-party coalitions
   * with any one share, the parties' positions in the table increase
   * lexicographically, as the loops produced them.
   */
  lemma RankedPairsTiesInGenerationOrder(parties: seq<string>, shares: seq<real>, threshold: real, v: real)
    requires |parties| == |shares| && Distinct(parties)
    ensures WithShare(RankedPairs(parties, shares, threshold), v) == WithShare(GeneratedPairs(parties, shares, threshold), v)
    ensures InGenerationOrder(parties, WithShare(RankedPairs(parties, shares, threshold), v))
  {
    PairsBeforeOrdered(parties, shares, threshold, |parties|);
    SortIsStable(GeneratedPairs(parties, shares, threshold), v);
    WithShareKeepsOrder(parties, GeneratedPairs(parties, shares, threshold), v);
  }

  /**
   * Ties keep the generation order: among the ranked three-party coalitions
   * with any one share, the parties' positions in the table increase
   * lexicographically, as the loops produced them.
   */
  lemma RankedTriplesTiesInGenerationOrder(parties: seq<string>, shares: seq<real>, threshold: real, v: real)
    requires |parties| == |shares| && Distinct(parties)
    ensures WithShare(RankedTriples(parties, shares, threshold), v) == WithShare(GeneratedTriples(parties, shares, threshold), v)
    ensures InGenerationOrder(parties, WithShare(RankedTriples(parties, shares, threshold), v))
  {
    TriplesBeforeOrdered(parties, shares, threshold, |parties|);
    SortIsStable(GeneratedTriples(parties, shares, threshold), v);
    WithShareKeepsOrder(parties, GeneratedTriples(parties, shares, threshold), v);
  }
}
