/**
 * A worked example of the coalition finder: four parties with 40, 30, 20 and
 * 10 percent of the second votes, in that order, and the dashboard's
 * threshold of 50 percent.
 *
 * Both coalitions at exactly 50 percent are listed, and of the two ties
 * (A, D) comes before (B, C): the loops generate (A, D) first and the stable
 * sort keeps it there.
 */
module FourParties {
  import opened Ranking
  import opened Finder

  const ExampleParties: seq<string> := ["A", "B", "C", "D"]
  const ExampleShares: seq<real> := [40.0, 30.0, 20.0, 10.0]

  lemma RankedPairsExample()
    ensures RankedPairs(ExampleParties, ExampleShares, Majority)
         == [Coalition(["A", "B"], 70.0), Coalition(["A", "C"], 60.0), Coalition(["A", "D"], 50.0), Coalition(["B", "C"], 50.0)]
  {
    var ab, ac, ad, bc := Coalition(["A", "B"], 70.0), Coalition(["A", "C"], 60.0), Coalition(["A", "D"], 50.0), Coalition(["B", "C"], 50.0);
    assert PairRow(ExampleParties, ExampleShares, Majority, 0, 4) == [ab, ac, ad];
    assert PairRow(ExampleParties, ExampleShares, Majority, 1, 4) == [bc];
    assert PairRow(ExampleParties, ExampleShares, Majority, 2, 4) == [];
    assert PairRow(ExampleParties, ExampleShares, Majority, 3, 4) == [];
    assert GeneratedPairs(ExampleParties, ExampleShares, Majority) == [ab, ac, ad, bc];
    SortKeepsRanking([ab, ac, ad, bc]);
  }

  lemma FirstTripleBlock()
    ensures TripleBlock(ExampleParties, ExampleShares, Majority, 0, 4)
         == [Coalition(["A", "B", "C"], 90.0), Coalition(["A", "B", "D"], 80.0), Coalition(["A", "C", "D"], 70.0)]
  {
    var abc, abd, acd := Coalition(["A", "B", "C"], 90.0), Coalition(["A", "B", "D"], 80.0), Coalition(["A", "C", "D"], 70.0);
    assert TripleRow(ExampleParties, ExampleShares, Majority, 0, 1, 4) == [abc, abd];
    assert TripleRow(ExampleParties, ExampleShares, Majority, 0, 2, 4) == [acd];
    assert TripleRow(ExampleParties, ExampleShares, Majority, 0, 3, 4) == [];
    assert TripleBlock(ExampleParties, ExampleShares, Majority, 0, 2) == [abc, abd];
    assert TripleBlock(ExampleParties, ExampleShares, Majority, 0, 3) == [abc, abd, acd];
  }

  lemma LaterTripleBlocks()
    ensures TripleBlock(ExampleParties, ExampleShares, Majority, 1, 4) == [Coalition(["B", "C", "D"], 60.0)]
    ensures TripleBlock(ExampleParties, ExampleShares, Majority, 2, 4) == []
    ensures TripleBlock(ExampleParties, ExampleShares, Majority, 3, 4) == []
  {
    var bcd := Coalition(["B", "C", "D"], 60.0);
    assert TripleRow(ExampleParties, ExampleShares, Majority, 1, 2, 4) == [bcd];
    assert TripleRow(ExampleParties, ExampleShares, Majority, 1, 3, 4) == [];
    assert TripleRow(ExampleParties, ExampleShares, Majority, 2, 3, 4) == [];
    assert TripleBlock(ExampleParties, ExampleShares, Majority, 1, 3) == [bcd];
  }

  /** The loops generate the four triples in the order ABC, ABD, ACD, BCD. */
  lemma GeneratedTriplesExample()
    ensures GeneratedTriples(ExampleParties, ExampleShares, Majority)
         == [Coalition(["A", "B", "C"], 90.0), Coalition(["A", "B", "D"], 80.0), Coalition(["A", "C", "D"], 70.0), Coalition(["B", "C", "D"], 60.0)]
  {
    FirstTripleBlock();
    LaterTripleBlocks();
    var first := TriplesBefore(ExampleParties, ExampleShares, Majority, 1);
    assert first == TripleBlock(ExampleParties, ExampleShares, Majority, 0, 4);
    assert TriplesBefore(ExampleParties, ExampleShares, Majority, 2) == first + TripleBlock(ExampleParties, ExampleShares, Majority, 1, 4);
    assert TriplesBefore(ExampleParties, ExampleShares, Majority, 4) == TriplesBefore(ExampleParties, ExampleShares, Majority, 2);
  }

  lemma RankedTriplesExample()
    ensures RankedTriples(ExampleParties, ExampleShares, Majority)
         == [Coalition(["A", "B", "C"], 90.0), Coalition(["A", "B", "D"], 80.0), Coalition(["A", "C", "D"], 70.0), Coalition(["B", "C", "D"], 60.0)]
  {
    var ranked := [Coalition(["A", "B", "C"], 90.0), Coalition(["A", "B", "D"], 80.0), Coalition(["A", "C", "D"], 70.0), Coalition(["B", "C", "D"], 60.0)];
    GeneratedTriplesExample();
    assert SortedDesc(ranked);
    SortKeepsRanking(ranked);
  }
}
