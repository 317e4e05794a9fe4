# Juniorwahl 2025 dashboard: coalition finder, opposition chart and row filters

This project models the computational core of `TEST.py`, the Streamlit dashboard
that shows the results of the 2025 school mock election ("Juniorwahl") at SZUT.
It covers three parts of that script:

- **The sidebar filters** (`row_filter.dfy`, module `RowFilter`). The filter
  loop narrows a copy of the survey rows, one filter at a time.
  - A filter whose selection holds "Alle" is skipped.
  - The two grouped filters, "Social Media Nutzung" and
    "Informationsquellen", keep the rows in which some picked yes/no column
    reads "WAHR".
  - Every other filter keeps the rows whose cell in its column is one of the
    picked values.
- **The coalition finder** (`shares.dfy`, `ranking.dfy`, `finder.dfy`;
  modules `Shares`, `Ranking` and `Finder`).
  - It takes the second-vote shares in percent, as
    `value_counts(normalize=True) * 100` produces them.
  - It walks every index pair `i < j` and every index triple `i < j < k` of
    the share table, and keeps each combination whose combined share is at
    least the threshold (50 in the dashboard).
  - It ranks both lists with Python's stable `sorted(..., reverse=True)` on
    the share.
  - `FindCoalitions` is the outer loop and the two sorts. `ScanFrom` is the
    `j` loop, and `ScanTriples` is the `k` loop inside it. Their contracts
    tie the lists to `RankedPairs` and `RankedTriples`.
  - The lemmas in `Finder` state what those lists contain and in which order:
    - soundness;
    - completeness with each combination listed exactly once;
    - the inclusive threshold;
    - emptiness for too few parties or no majority;
    - sortedness, permutation and stability;
    - ties in generation order.
  - `four_parties.dfy` works through a four-party example exactly.
- **The coalition chart** (`opposition.dfy`, module `Opposition`).
  - `plot_koalition` appends an "Opposition" slice of `100 - sum(sizes)` to
    the caller's lists, in place. Those lists are modelled as objects
    (`ListRef`) whose contents the method replaces.
  - The lemmas show that, for every listed coalition:
    - the chart's slices add up to the coalition's share;
    - the opposition slice lies between 0 and `100 - threshold`.

Percentages are exact reals, and the threshold is a parameter (`Finder.Majority`
is the dashboard's 50).

The four-party example (shares A 40, B 30, C 20, D 10) follows the code. Both
(A, D) and (B, C) reach exactly 50, and the loops generate (A, D) first, in the
`i = 0` round. The stable sort keeps that order, so the ranking is
AB 70, AC 60, AD 50, BC 50.

## Model

| member | source | states |
|---|---|---|
| Shares.PercentShares | TEST.py:187 | Each share is 100 times the party's count divided by the number of counted votes. Every share lies in (0, 100]. The shares add up to 100 whenever a vote was counted. A party with more votes never has a smaller share. |
| Shares.ShareOf | TEST.py:197 | `partei_anteile[name]`: when the table lists each party once, the share found for a name is the share at the position that lists it. |
| Shares.ShareOfListed | TEST.py:197 | Looking a party up by name in the share table gives the share at its position, because the table lists each party once. |
| Ranking.SortByShareDesc | TEST.py:207-208 | The ranking is a permutation of its input (same multiset), and shares never increase along it. |
| Ranking.SortKeepsOccurrences | TEST.py:207-208 | Sorting changes neither which coalitions are listed nor how often. |
| Ranking.SortIsStable | TEST.py:207-208 | For every share value, the coalitions with that share leave the sort in exactly the order they entered it (Python's sort is stable). |
| Ranking.StableSortIsUnique | TEST.py:207-208 | Any list that is sorted descending and keeps every group of equal shares in input order is the ranking, so the model's sort is the stable sort. |
| Ranking.SortKeepsRanking | TEST.py:207-208 | An already ranked list is left unchanged by the sort. |
| Finder.FindCoalitions | TEST.py:190-208 | The nested loops followed by the sorts return exactly the ranked two-party list and the ranked three-party list. |
| Finder.ScanFrom | TEST.py:196-204 | One round of the outer loop for party `i` appends exactly the qualifying pairs `(i, j)` and triples `(i, j, k)`, in loop order. |
| Finder.ScanTriples | TEST.py:201-204 | The innermost loop appends exactly the qualifying triples `(i, j, k)` for `k > j`, in loop order. |
| Finder.RankedPairsSound | TEST.py:195-199 | Every listed pair names two parties at increasing table positions. It carries the sum of their shares, which reaches the threshold. With fewer than two parties the list is empty. |
| Finder.RankedTriplesSound | TEST.py:201-204 | Every listed triple names three parties at increasing table positions. It carries the sum of their shares, which reaches the threshold. With fewer than three parties the list is empty. |
| Finder.PairListedOnce | TEST.py:195-199 | Each pair of parties a < b is listed exactly once if their shares reach the threshold, and not at all otherwise. |
| Finder.TripleListedOnce | TEST.py:201-204 | Each triple a < b < d is listed exactly once if their shares reach the threshold, and not at all otherwise. This holds independently of whether a pair inside it qualifies. |
| Finder.PairThresholdInclusive | TEST.py:198-199 | Any pair a < b whose shares add up to exactly the threshold is listed (the comparison is `>=`). |
| Finder.TripleThresholdInclusive | TEST.py:203-204 | Any triple a < b < d whose shares add up to exactly the threshold is listed. |
| Finder.NoMajorityNoPairs | TEST.py:195-199 | When no two parties reach the threshold together, the two-party list is empty. |
| Finder.NoMajorityNoTriples | TEST.py:201-204 | When no three parties reach the threshold together, the three-party list is empty. |
| Finder.RankedPairsTiesInGenerationOrder | TEST.py:195-207 | For each share value, the ranked pairs with that share are the generated ones with that share, in the same order. Their table positions increase lexicographically, as the loops produced them. |
| Finder.RankedTriplesTiesInGenerationOrder | TEST.py:201-208 | For each share value, the ranked triples with that share are the generated ones with that share, in the same order. Their table positions increase lexicographically. |
| FourParties.RankedPairsExample | TEST.py:195-207 | With shares A 40, B 30, C 20, D 10 and threshold 50, the ranked pairs are AB 70, AC 60, AD 50, BC 50. |
| FourParties.FirstTripleBlock | TEST.py:201-204 | In the same example, the `i = 0` round of the loops generates ABC 90, ABD 80, ACD 70. |
| FourParties.GeneratedTriplesExample | TEST.py:195-204 | In the same example, the loops generate ABC 90, ABD 80, ACD 70, BCD 60, in that order. |
| FourParties.RankedTriplesExample | TEST.py:201-208 | In the same example, the ranked triples are ABC 90, ABD 80, ACD 70, BCD 60. |
| Opposition.ListRef.constructor | TEST.py:235-236 | A new list holds exactly the given items. |
| Opposition.PlotCoalition | TEST.py:213-217 | "Opposition" is appended to the labels. `100 - sum(sizes)` is appended to the sizes. Nothing else in either list changes. Afterwards the sizes add up to 100. |
| Opposition.CoalitionSizes | TEST.py:236 | The `sizes` list has one entry per coalition party: the share the table lists for that party's name. |
| Opposition.ChartCoalition | TEST.py:235-239 | A coalition's chart has its party names plus "Opposition" as labels. Its sizes are the looked-up shares plus one hundred minus their sum. |
| Opposition.PairSizes | TEST.py:236 | For a pair of distinct table parties, the shares looked up by name are the shares at their positions. |
| Opposition.TripleSizes | TEST.py:258 | For a triple of distinct table parties, the shares looked up by name are the shares at their positions. |
| Opposition.ListedPairOpposition | TEST.py:213-217 | For every listed pair, given non-negative shares summing to 100: its parties are in the table; its looked-up sizes add up to its share; its share lies between the threshold and 100; the opposition slice lies in [0, 100 - threshold]. |
| Opposition.ListedTripleOpposition | TEST.py:213-217 | The same for every listed triple. |
| Opposition.PairOpposition | TEST.py:235-239 | The same for every pair listed from shares computed from positive vote counts. |
| Opposition.TripleOpposition | TEST.py:257-261 | The same for every triple listed from shares computed from positive vote counts. |
| RowFilter.Matches | TEST.py:142-145 | The test of an active filter: `isin` on its column, or some picked yes/no column reading "WAHR". With nothing picked no row matches. An empty cell never matches an ordinary filter. |
| RowFilter.MatchesReadsOnlyItsColumns | TEST.py:142-145 | Two rows that agree on the cells a filter reads, its own column or the picked yes/no columns, are kept or dropped alike. |
| RowFilter.KeepMatching | TEST.py:143-145 | `filtered_df[mask]` keeps a subsequence of the rows. A row is in it if and only if it is one of the rows and matches the filter. |
| RowFilter.ApplyFilters | TEST.py:138-145 | The filter loop leaves exactly the rows that pass every filter, in their original order. |
| RowFilter.FilterLoopIsOnePass | TEST.py:139-145 | Narrowing filter by filter gives the same rows as a single pass that keeps the rows passing all filters. |
| RowFilter.FilteredRows | TEST.py:139-145 | The result is a subsequence of the input rows. A row is in it if and only if it is an input row and passes every filter. |
| RowFilter.AllSwitchedOffKeepsRows | TEST.py:139-140 | When every filter holds "Alle", as the sidebar starts, all rows are kept unchanged. |
| RowFilter.EmptySelectionKeepsNothing | TEST.py:140-145 | An active filter with nothing picked removes every row, in both kinds of filter. |
| RowFilter.FilterOrderIrrelevant | TEST.py:139 | Applying the same filters in another order leaves the same rows. |

## Left out

- Reading the CSV file and renaming its columns (lines 5-23), and building
  the filter widgets (lines 122-136).
  - The filters reach the model as a list of column/selection pairs.
  - The rows reach the model as maps from column name to cell text.
- The Streamlit page, the plotly charts, the colour table, the "top four plus
  expander" layout and the `.1f` title formatting. These are presentation
  only.
- `plot_koalition`'s `title` argument, its colour slice and the figure it
  returns, for the same reason.
- Floating-point rounding. Shares are exact reals, so a sum that rounds just
  below 50 in binary floating point is counted as reaching 50 here.
- The tally of the "Zweitstimme" cells of the filtered rows into vote counts
  (`value_counts` on line 187, which drops empty cells and lists each party
  once). The counts are a parameter of the model. `PairOpposition` and
  `TripleOpposition` assume them positive, and the parties distinct, which
  `value_counts` guarantees.
  - Nothing links those counts to the rows that `RowFilter` keeps.
- The order `value_counts` gives the parties (by falling count, ties in an
  unspecified order). The finder is modelled for any table order. The shares
  come in the order of the counts they are computed from.
- The unused `total_stimmen` (line 186).
- Shares.ShareOf: requires that the name is listed. The source would raise a
  `KeyError` otherwise, which cannot happen for coalitions built from the
  table's own index.
- RowFilter.Matches: a missing cell (NaN in the source) is modelled as an
  absent map entry, which matches no picked value and is not "WAHR".
  - A picked yes/no column that the data lacks entirely would make pandas
    raise. Here it counts as unticked.
- The gender cross-tabulation and the other charts after line 274 are not
  part of this model.
