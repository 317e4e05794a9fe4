/**
 * The coalition chart helper `plot_koalition` (TEST.py, lines 213-217) and
 * the lists the dashboard hands it (lines 235-236 and 257-258).
 *
 * For every listed coalition the dashboard builds a list of party names and
 * a list of their shares, and `plot_koalition` appends one more slice to
 * both: "Opposition", sized one hundred minus the coalition's total. The
 * helper changes the caller's lists in place, so they are modelled as
 * objects whose contents the helper replaces.
 */
module Opposition {
  import opened Shares
  import opened Ranking
  import opened Finder

  /** A Python list, shared by reference between the caller and the helper. */
  class ListRef<T> {
    var items: seq<T>

    constructor (initial: seq<T>)
      ensures items == initial
    {
      items := initial;
    }
  }

  /** The label of the slice that stands for every party outside the coalition. */
  const OppositionLabel: string := "Opposition"

  /**
   * `plot_koalition(labels, sizes, title)`: appends the opposition slice to
   * both lists. Afterwards the slices add up to one hundred percent.
   */
  method PlotCoalition(labels: ListRef<string>, sizes: ListRef<real>)
    modifies labels, sizes
    ensures labels.items == old(labels.items) + [OppositionLabel]
    ensures sizes.items == old(sizes.items) + [100.0 - Sum(old(sizes.items))]
    ensures Sum(sizes.items) == 100.0
  {
    var opposition := 100.0 - Sum(sizes.items);
    labels.items := labels.items + [OppositionLabel];
    sizes.items := sizes.items + [opposition];
    SumAppend(old(sizes.items), opposition);
  }

  /** `[partei_anteile[name] for name in names]`: the shares the dashboard looks up for a coalition's parties. */
  function CoalitionSizes(parties: seq<string>, shares: seq<real>, names: seq<string>): (sizes: seq<real>)
    requires |parties| == |shares| && forall k :: 0 <= k < |names| ==> names[k] in parties
    ensures |sizes| == |names|
    ensures forall k :: 0 <= k < |names| ==> sizes[k] == ShareOf(parties, shares, names[k])
  {
    if names == [] then []
    else [ShareOf(parties, shares, names[0])] + CoalitionSizes(parties, shares, names[1..])
  }

  /**
   * The chart of one listed coalition (TEST.py, lines 235-239): its party
   * names and their looked-up shares, each followed by the opposition slice.
   */
  method ChartCoalition(parties: seq<string>, shares: seq<real>, c: Coalition)
    returns (labels: ListRef<string>, sizes: ListRef<real>)
    requires |parties| == |shares| && forall k :: 0 <= k < |c.members| ==> c.members[k] in parties
    ensures fresh(labels) && fresh(sizes)
    ensures labels.items == c.members + [OppositionLabel]
    ensures sizes.items == CoalitionSizes(parties, shares, c.members)
                           + [100.0 - Sum(CoalitionSizes(parties, shares, c.members))]
  {
    labels := new ListRef(c.members);
    sizes := new ListRef(CoalitionSizes(parties, shares, c.members));
    PlotCoalition(labels, sizes);
  }

  lemma PairSizes(parties: seq<string>, shares: seq<real>, a: nat, b: nat)
    requires |parties| == |shares| && Distinct(parties) && a < |parties| && b < |parties|
    ensures CoalitionSizes(parties, shares, PairAt(parties, shares, a, b).members) == [shares[a], shares[b]]
  {
    var names := [parties[a], parties[b]];
    ShareOfListed(parties, shares, a);
    ShareOfListed(parties, shares, b);
    assert names[1..] == [parties[b]] && names[1..][1..] == [];
    assert CoalitionSizes(parties, shares, names[1..]) == [shares[b]];
  }

  lemma TripleSizes(parties: seq<string>, shares: seq<real>, a: nat, b: nat, d: nat)
    requires |parties| == |shares| && Distinct(parties) && a < |parties| && b < |parties| && d < |parties|
    ensures CoalitionSizes(parties, shares, TripleAt(parties, shares, a, b, d).members) == [shares[a], shares[b], shares[d]]
  {
    var names := [parties[a], parties[b], parties[d]];
    ShareOfListed(parties, shares, a);
    ShareOfListed(parties, shares, b);
    ShareOfListed(parties, shares, d);
    assert names[1..] == [parties[b], parties[d]] && names[1..][1..] == [parties[d]] && names[1..][1..][1..] == [];
    assert CoalitionSizes(parties, shares, names[1..][1..]) == [shares[d]];
    assert CoalitionSizes(parties, shares, names[1..]) == [shares[b], shares[d]];
  }

  /**
   * For every two-party coalition the finder lists from shares that are
   * non-negative and add up to one hundred, the chart's slices for the
   * coalition add up to the share in its title, and the opposition slice is
   * never negative and never above one hundred minus the threshold.
   */
  lemma ListedPairOpposition(parties: seq<string>, shares: seq<real>, threshold: real, c: Coalition)
    requires |parties| == |shares| && Distinct(parties) && NonNegative(shares) && Sum(shares) == 100.0
    requires c in RankedPairs(parties, shares, threshold)
    ensures forall k :: 0 <= k < |c.members| ==> c.members[k] in parties
    ensures Sum(CoalitionSizes(parties, shares, c.members)) == c.share
    ensures threshold <= c.share <= 100.0
    ensures 0.0 <= 100.0 - Sum(CoalitionSizes(parties, shares, c.members)) <= 100.0 - threshold
  {
    RankedPairsSound(parties, shares, threshold);
    assert QualifyingPair(parties, shares, threshold, c);
    var a: nat, b: nat :| a < b < |parties| && c == PairAt(parties, shares, a, b) && c.share >= threshold;
    assert c.members == [parties[a], parties[b]];
    PairSizes(parties, shares, a, b);
    SumOfTwo(shares[a], shares[b]);
    PairBelowSum(shares, a, b);
  }

  /** The same for three-party coalitions. */
  lemma ListedTripleOpposition(parties: seq<string>, shares: seq<real>, threshold: real, c: Coalition)
    requires |parties| == |shares| && Distinct(parties) && NonNegative(shares) && Sum(shares) == 100.0
    requires c in RankedTriples(parties, shares, threshold)
    ensures forall k :: 0 <= k < |c.members| ==> c.members[k] in parties
    ensures Sum(CoalitionSizes(parties, shares, c.members)) == c.share
    ensures threshold <= c.share <= 100.0
    ensures 0.0 <= 100.0 - Sum(CoalitionSizes(parties, shares, c.members)) <= 100.0 - threshold
  {
    RankedTriplesSound(parties, shares, threshold);
    assert QualifyingTriple(parties, shares, threshold, c);
    var a: nat, b: nat, d: nat :| a < b < d < |parties| && c == TripleAt(parties, shares, a, b, d) && c.share >= threshold;
    assert c.members == [parties[a], parties[b], parties[d]];
    TripleSizes(parties, shares, a, b, d);
    SumOfThree(shares[a], shares[b], shares[d]);
    TripleBelowSum(shares, a, b, d);
  }

  /**
   * For every two-party coalition the finder lists from the vote counts, the
   * chart's slices for the coalition add up to the share in its title, and
   * the opposition slice is never negative and never above one hundred minus
   * the threshold.
   */
  lemma PairOpposition(parties: seq<string>, counts: seq<nat>, threshold: real, c: Coalition)
    requires |parties| == |counts| && Distinct(parties) && PositiveCounts(counts)
    requires c in RankedPairs(parties, PercentShares(counts), threshold)
    ensures forall k :: 0 <= k < |c.members| ==> c.members[k] in parties
    ensures Sum(CoalitionSizes(parties, PercentShares(counts), c.members)) == c.share
    ensures threshold <= c.share <= 100.0
    ensures 0.0 <= 100.0 - Sum(CoalitionSizes(parties, PercentShares(counts), c.members)) <= 100.0 - threshold
  {
    var shares := PercentShares(counts);
    RankedPairsSound(parties, shares, threshold);
    assert NonNegative(shares);
    ListedPairOpposition(parties, shares, threshold, c);
  }

  /** The same for three-party coalitions. */
  lemma TripleOpposition(parties: seq<string>, counts: seq<nat>, threshold: real, c: Coalition)
    requires |parties| == |counts| && Distinct(parties) && PositiveCounts(counts)
    requires c in RankedTriples(parties, PercentShares(counts), threshold)
    ensures forall k :: 0 <= k < |c.members| ==> c.members[k] in parties
    ensures Sum(CoalitionSizes(parties, PercentShares(counts), c.members)) == c.share
    ensures threshold <= c.share <= 100.0
    ensures 0.0 <= 100.0 - Sum(CoalitionSizes(parties, PercentShares(counts), c.members)) <= 100.0 - threshold
  {
    var shares := PercentShares(counts);
    RankedTriplesSound(parties, shares, threshold);
    assert NonNegative(shares);
    ListedTripleOpposition(parties, shares, threshold, c);
  }
}
