/**
 * The sidebar filters of the dashboard (TEST.py, lines 138-145).
 *
 * Each filter names a column and the values the user picked for it. A filter
 * whose selection holds "Alle" is skipped. A filter on one of the two grouped
 * columns, "Social Media Nutzung" and "Informationsquellen", keeps the rows
 * in which at least one of the picked yes/no columns reads "WAHR". Any other
 * filter keeps the rows whose value in its column is one of the picked
 * values. The filters are applied one after the other, each to the rows the
 * previous ones kept.
 *
 * A row is a map from column name to cell text; a missing entry stands for
 * an empty cell, which equals no picked value and is not "WAHR".
 */
module RowFilter {

  type Row = map<string, string>

  datatype ColumnFilter = ColumnFilter(column: string, selection: seq<string>)

  /** The choice that switches a filter off. */
  const All: string := "Alle"

  /** How the survey marks a ticked yes/no column. */
  const Ticked: string := "WAHR"

  const SocialMedia: string := "Social Media Nutzung"
  const InfoSources: string := "Informationsquellen"

  /** The two filters whose picked values are themselves column names. */
  predicate IsGrouped(column: string)
  {
    column == SocialMedia || column == InfoSources
  }

  /** Some column of `columns` is ticked in `row`. */
  predicate AnyTicked(row: Row, columns: seq<string>)
  {
    exists k :: 0 <= k < |columns| && columns[k] in row && row[columns[k]] == Ticked
  }

  /**
   * The test an active filter applies to one row: `isin` on its column, or
   * `eq("WAHR").any` across the picked columns. With nothing picked no row
   * matches, and an empty cell never matches an ordinary filter.
   */
  predicate Matches(f: ColumnFilter, row: Row)
    ensures Matches(f, row) ==> f.selection != []
    ensures Matches(f, row) && !IsGrouped(f.column) ==> f.column in row
  {
    if IsGrouped(f.column) then AnyTicked(row, f.selection)
    else f.column in row && row[f.column] in f.selection
  }

  /** A row survives a filter that is switched off or that it matches. */
  predicate Passes(f: ColumnFilter, row: Row)
  {
    All in f.selection || Matches(f, row)
  }

  /** A row survives every filter of `filters`. */
  predicate PassesAll(filters: seq<ColumnFilter>, row: Row)
  {
    forall k :: 0 <= k < |filters| ==> Passes(filters[k], row)
  }

  /** `rows[mask]`: the rows that match `f`, in their original order. */
  function KeepMatching(rows: seq<Row>, f: ColumnFilter): (kept: seq<Row>)
    ensures |kept| <= |rows|
    ensures forall r :: r in kept <==> r in rows && Matches(f, r)
    ensures Subsequence(kept, rows)
  {
    if rows == [] then []
    else
      var rest := KeepMatching(rows[1..], f);
      if Matches(f, rows[0]) then
        var kept := [rows[0]] + rest;
        assert kept[0] == rows[0] && kept[1..] == rest;
        kept
      else
        assert Subsequence(rest, rows[1..]);
        rest
  }

  /** The rows left after one pass of the filter loop over `f`. */
  function Step(rows: seq<Row>, f: ColumnFilter): seq<Row>
  {
    if All in f.selection then rows else KeepMatching(rows, f)
  }

  /** The rows left after the filter loop has handled every filter of `filters`. */
  function ApplyAll(rows: seq<Row>, filters: seq<ColumnFilter>): seq<Row>
  {
    if filters == [] then rows
    else Step(ApplyAll(rows, filters[..|filters| - 1]), filters[|filters| - 1])
  }

  /**
   * The filter loop: starts from a copy of all rows and narrows it filter by
   * filter.
   */
  method ApplyFilters(rows: seq<Row>, filters: seq<ColumnFilter>) returns (filtered: seq<Row>)
    ensures filtered == Where(rows, filters)
  {
    filtered := rows;
    for n := 0 to |filters|
      invariant filtered == ApplyAll(rows, filters[..n])
    {
      var f := filters[n];
      if All !in f.selection {
        filtered := KeepMatching(filtered, f);
      }
      assert filters[..n + 1][..n] == filters[..n];
    }
    assert filters[..|filters|] == filters;
    FilterLoopIsOnePass(rows, filters);
  }

  /**
   * The reference definition: one pass over the rows that keeps, in order,
   * exactly the rows that survive every filter.
   */
  function Where(rows: seq<Row>, filters: seq<ColumnFilter>): (kept: seq<Row>)
    ensures |kept| <= |rows|
  {
    if rows == [] then []
    else (if PassesAll(filters, rows[0]) then [rows[0]] else []) + Where(rows[1..], filters)
  }

  lemma {:induction false} WhereNoFilters(rows: seq<Row>)
    ensures Where(rows, []) == rows
  {
    if rows != [] {
      WhereNoFilters(rows[1..]);
    }
  }

  lemma PassesAllSnoc(filters: seq<ColumnFilter>, f: ColumnFilter, row: Row)
    ensures PassesAll(filters + [f], row) <==> PassesAll(filters, row) && Passes(f, row)
  {
    var fs := filters + [f];
    assert fs[|filters|] == f;
    if PassesAll(filters, row) && Passes(f, row) {
      forall k | 0 <= k < |fs| ensures Passes(fs[k], row) {
        if k < |filters| {
          assert fs[k] == filters[k];
        }
      }
    }
    if PassesAll(fs, row) {
      forall k | 0 <= k < |filters| ensures Passes(filters[k], row) {
        assert fs[k] == filters[k];
      }
    }
  }

  /** One more active filter narrows the single-pass result by that filter. */
  lemma {:induction false} WhereSnoc(rows: seq<Row>, filters: seq<ColumnFilter>, f: ColumnFilter)
    ensures Where(rows, filters + [f]) == Step(Where(rows, filters), f)
  {
    if rows != [] {
      var r, t := rows[0], rows[1..];
      WhereSnoc(t, filters, f);
      PassesAllSnoc(filters, f, r);
      var w, wt := Where(rows, filters), Where(t, filters);
      assert Where(rows, filters + [f]) == (if PassesAll(filters + [f], r) then [r] else []) + Step(wt, f);
      if PassesAll(filters, r) {
        assert w == [r] + wt;
        assert w[0] == r && w[1..] == wt;
        if All !in f.selection {
          assert KeepMatching(w, f) == (if Matches(f, r) then [r] else []) + KeepMatching(wt, f);
        }
      } else {
        assert w == wt;
      }
    }
  }

  /**
   * Narrowing the rows filter by filter, as the loop does, keeps exactly the
   * rows that pass every filter, in their original order.
   */
  lemma {:induction false} FilterLoopIsOnePass(rows: seq<Row>, filters: seq<ColumnFilter>)
    ensures ApplyAll(rows, filters) == Where(rows, filters)
  {
    if filters == [] {
      WhereNoFilters(rows);
    } else {
      var init := filters[..|filters| - 1];
      FilterLoopIsOnePass(rows, init);
      assert init + [filters[|filters| - 1]] == filters;
      WhereSnoc(rows, init, filters[|filters| - 1]);
    }
  }

  /** `sub` is `s` with some rows left out and the rest in their original order. */
  ghost predicate Subsequence(sub: seq<Row>, s: seq<Row>)
    decreases |s|
  {
    if sub == [] then true
    else if s == [] then false
    else (sub[0] == s[0] && Subsequence(sub[1..], s[1..])) || Subsequence(sub, s[1..])
  }

  /**
   * Filtering only ever removes rows: the result keeps the surviving rows in
   * their order, and a row is in it exactly when it is among the input rows
   * and passes every filter.
   */
  lemma {:induction false} FilteredRows(rows: seq<Row>, filters: seq<ColumnFilter>, row: Row)
    ensures Subsequence(Where(rows, filters), rows)
    ensures row in Where(rows, filters) <==> row in rows && PassesAll(filters, row)
  {
    if rows != [] {
      FilteredRows(rows[1..], filters, row);
      assert rows == [rows[0]] + rows[1..];
      var w := Where(rows, filters);
      if PassesAll(filters, rows[0]) {
        assert w[0] == rows[0] && w[1..] == Where(rows[1..], filters);
        assert Subsequence(w[1..], rows[1..]);
      } else {
        assert w == Where(rows[1..], filters);
        assert Subsequence(w, rows[1..]);
      }
    }
  }

  /** Two rows that agree on the cells a filter reads are kept or dropped alike. */
  lemma MatchesReadsOnlyItsColumns(f: ColumnFilter, row: Row, other: Row)
    requires !IsGrouped(f.column) ==> (f.column in row <==> f.column in other)
                                      && (f.column in row ==> row[f.column] == other[f.column])
    requires IsGrouped(f.column) ==> forall k :: 0 <= k < |f.selection| ==>
               (f.selection[k] in row <==> f.selection[k] in other)
               && (f.selection[k] in row ==> row[f.selection[k]] == other[f.selection[k]])
    ensures Matches(f, row) <==> Matches(f, other)
  {
    if IsGrouped(f.column) {
      if AnyTicked(row, f.selection) {
        var k :| 0 <= k < |f.selection| && f.selection[k] in row && row[f.selection[k]] == Ticked;
        assert f.selection[k] in other && other[f.selection[k]] == Ticked;
      }
      if AnyTicked(other, f.selection) {
        var k :| 0 <= k < |f.selection| && f.selection[k] in other && other[f.selection[k]] == Ticked;
        assert f.selection[k] in row && row[f.selection[k]] == Ticked;
      }
    }
  }

  /** With every filter switched off, as the sidebar starts, all rows are kept. */
  lemma {:induction false} AllSwitchedOffKeepsRows(rows: seq<Row>, filters: seq<ColumnFilter>)
    requires forall k :: 0 <= k < |filters| ==> All in filters[k].selection
    ensures ApplyAll(rows, filters) == rows
  {
    if filters != [] {
      AllSwitchedOffKeepsRows(rows, filters[..|filters| - 1]);
    }
  }

  /** An active filter with nothing picked removes every row. */
  lemma {:induction false} EmptySelectionKeepsNothing(rows: seq<Row>, filters: seq<ColumnFilter>, k: nat)
    requires k < |filters| && filters[k].selection == []
    ensures Where(rows, filters) == []
  {
    if rows != [] {
      EmptySelectionKeepsNothing(rows[1..], filters, k);
      assert !Passes(filters[k], rows[0]);
    }
  }

  /** The order in which the filters are applied does not change the result. */
  lemma {:induction false} FilterOrderIrrelevant(rows: seq<Row>, filters: seq<ColumnFilter>, reordered: seq<ColumnFilter>)
    requires multiset(filters) == multiset(reordered)
    ensures ApplyAll(rows, filters) == ApplyAll(rows, reordered)
  {
    FilterLoopIsOnePass(rows, filters);
    FilterLoopIsOnePass(rows, reordered);
    SameFiltersSameRows(rows, filters, reordered);
  }

  lemma SameFiltersPass(filters: seq<ColumnFilter>, reordered: seq<ColumnFilter>, row: Row)
    requires multiset(filters) == multiset(reordered)
    ensures PassesAll(filters, row) <==> PassesAll(reordered, row)
  {
    if PassesAll(filters, row) {
      forall k | 0 <= k < |reordered| ensures Passes(reordered[k], row) {
        assert reordered[k] in multiset(filters);
        var m :| 0 <= m < |filters| && filters[m] == reordered[k];
      }
    }
    if PassesAll(reordered, row) {
      forall k | 0 <= k < |filters| ensures Passes(filters[k], row) {
        assert filters[k] in multiset(reordered);
        var m :| 0 <= m < |reordered| && reordered[m] == filters[k];
      }
    }
  }

  lemma {:induction false} SameFiltersSameRows(rows: seq<Row>, filters: seq<ColumnFilter>, reordered: seq<ColumnFilter>)
    requires multiset(filters) == multiset(reordered)
    ensures Where(rows, filters) == Where(rows, reordered)
  {
    if rows != [] {
      SameFiltersSameRows(rows[1..], filters, reordered);
      SameFiltersPass(filters, reordered, rows[0]);
    }
  }
}
