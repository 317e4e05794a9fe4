/**
 * Second-vote shares of the dashboard's coalition finder.
 *
 * The dashboard turns the (filtered) second-vote column into percentages with
 * `value_counts(normalize=True) * 100`: one entry per party that received at
 * least one vote, each its vote count divided by the number of counted votes,
 * times one hundred. Percentages are modelled as exact reals.
 */
module Shares {

  /** Python's built-in `sum` over a list of percentages. */
  function Sum(s: seq<real>): real
  {
    if s == [] then 0.0 else s[0] + Sum(s[1..])
  }

  /** Sum of a list of vote counts. */
  function CountTotal(counts: seq<nat>): nat
  {
    if counts == [] then 0 else counts[0] + CountTotal(counts[1..])
  }

  /** The share table lists every party once. */
  ghost predicate Distinct(parties: seq<string>)
  {
    forall a, b :: 0 <= a < b < |parties| ==> parties[a] != parties[b]
  }

  /** The position of `name` in the share table's index, or `|parties|` when it is not listed. */
  function IndexOf(parties: seq<string>, name: string): (k: nat)
    ensures k <= |parties|
    ensures k < |parties| <==> name in parties
    ensures k < |parties| ==> parties[k] == name
    ensures forall m :: 0 <= m < k ==> parties[m] != name
  {
    if parties == [] then 0
    else if parties[0] == name then 0
    else 1 + IndexOf(parties[1..], name)
  }

  lemma IndexOfDistinct(parties: seq<string>, a: nat)
    requires Distinct(parties) && a < |parties|
    ensures IndexOf(parties, parties[a]) == a
  {
  }

  /** `partei_anteile[name]`: the share listed for the party `name`. */
  function ShareOf(parties: seq<string>, shares: seq<real>, name: string): (v: real)
    requires |parties| == |shares| && name in parties
    ensures Distinct(parties) ==> forall k :: 0 <= k < |parties| && parties[k] == name ==> v == shares[k]
  {
    assert Distinct(parties) ==> forall k :: 0 <= k < |parties| && parties[k] == name ==> IndexOf(parties, name) == k by {
      if Distinct(parties) {
        forall k | 0 <= k < |parties| && parties[k] == name ensures IndexOf(parties, name) == k {
          IndexOfDistinct(parties, k);
        }
      }
    }
    shares[IndexOf(parties, name)]
  }

  /** Looking a party up by name finds the share listed at its position. */
  lemma ShareOfListed(parties: seq<string>, shares: seq<real>, a: nat)
    requires |parties| == |shares| && Distinct(parties) && a < |parties|
    ensures ShareOf(parties, shares, parties[a]) == shares[a]
  {
    IndexOfDistinct(parties, a);
  }

  ghost predicate NonNegative(s: seq<real>)
  {
    forall k :: 0 <= k < |s| ==> s[k] >= 0.0
  }

  /** Every party listed by `value_counts` received at least one vote. */
  predicate PositiveCounts(counts: seq<nat>)
  {
    forall k :: 0 <= k < |counts| ==> counts[k] > 0
  }

  lemma {:induction false} SumAppend(s: seq<real>, x: real)
    ensures Sum(s + [x]) == Sum(s) + x
  {
    if s == [] {
      assert [x][1..] == [];
    } else {
      assert (s + [x])[1..] == s[1..] + [x];
      SumAppend(s[1..], x);
    }
  }

  lemma SumOfTwo(x: real, y: real)
    ensures Sum([x, y]) == x + y
  {
    assert [x, y][1..] == [y];
    assert [y][1..] == [];
    assert Sum([y]) == y;
  }

  lemma SumOfThree(x: real, y: real, z: real)
    ensures Sum([x, y, z]) == x + y + z
  {
    assert [x, y, z][1..] == [y, z];
    SumOfTwo(y, z);
  }

  lemma {:induction false} SumNonNegative(s: seq<real>)
    requires NonNegative(s)
    ensures Sum(s) >= 0.0
  {
    if s != [] {
      SumNonNegative(s[1..]);
    }
  }

  /** One share never exceeds the sum of all non-negative shares. */
  lemma {:induction false} ElementBelowSum(s: seq<real>, i: nat)
    requires i < |s| && NonNegative(s)
    ensures s[i] <= Sum(s)
  {
    if i == 0 {
      SumNonNegative(s[1..]);
    } else {
      ElementBelowSum(s[1..], i - 1);
      assert s[1..][i - 1] == s[i];
    }
  }

  /** The shares of two distinct parties never exceed the sum of all shares. */
  lemma {:induction false} PairBelowSum(s: seq<real>, i: nat, j: nat)
    requires i < j < |s| && NonNegative(s)
    ensures s[i] + s[j] <= Sum(s)
  {
    if i == 0 {
      ElementBelowSum(s[1..], j - 1);
    } else {
      PairBelowSum(s[1..], i - 1, j - 1);
    }
  }

  /** The shares of three distinct parties never exceed the sum of all shares. */
  lemma {:induction false} TripleBelowSum(s: seq<real>, i: nat, j: nat, k: nat)
    requires i < j < k < |s| && NonNegative(s)
    ensures s[i] + s[j] + s[k] <= Sum(s)
  {
    if i == 0 {
      PairBelowSum(s[1..], j - 1, k - 1);
    } else {
      TripleBelowSum(s[1..], i - 1, j - 1, k - 1);
    }
  }

  lemma {:induction false} CountBelowTotal(counts: seq<nat>, i: nat)
    requires i < |counts|
    ensures counts[i] <= CountTotal(counts)
  {
    if i > 0 {
      CountBelowTotal(counts[1..], i - 1);
    }
  }

  /** Each count multiplied by `scale`, in the order of `counts`. */
  function Scaled(counts: seq<nat>, scale: real): (r: seq<real>)
    ensures |r| == |counts|
  {
    if counts == [] then []
    else [(counts[0] as real) * scale] + Scaled(counts[1..], scale)
  }

  lemma {:induction false} ScaledAt(counts: seq<nat>, scale: real, k: nat)
    requires k < |counts|
    ensures Scaled(counts, scale)[k] == (counts[k] as real) * scale
  {
    if k > 0 {
      ScaledAt(counts[1..], scale, k - 1);
    }
  }

  lemma Distribute(a: real, b: real, scale: real)
    ensures a * scale + b * scale == (a + b) * scale
  {
  }

  lemma {:induction false} SumScaled(counts: seq<nat>, scale: real)
    ensures Sum(Scaled(counts, scale)) == (CountTotal(counts) as real) * scale
  {
    if counts != [] {
      SumScaled(counts[1..], scale);
      var p := Scaled(counts, scale);
      assert p[1..] == Scaled(counts[1..], scale);
      Distribute(counts[0] as real, CountTotal(counts[1..]) as real, scale);
    }
  }

  lemma ScaleOfTotal(total: real)
    requires total > 0.0
    ensures total * (100.0 / total) == 100.0
  {
  }

  lemma Reassociate(c: real, total: real)
    requires total > 0.0
    ensures c * (100.0 / total) == 100.0 * c / total
  {
  }

  /** Each scaled count is the count's part of the total, in percent. */
  lemma ScaledValues(counts: seq<nat>)
    requires CountTotal(counts) > 0
    ensures forall k :: 0 <= k < |counts| ==>
      Scaled(counts, 100.0 / (CountTotal(counts) as real))[k] == 100.0 * (counts[k] as real) / (CountTotal(counts) as real)
  {
    forall k | 0 <= k < |counts|
      ensures Scaled(counts, 100.0 / (CountTotal(counts) as real))[k] == 100.0 * (counts[k] as real) / (CountTotal(counts) as real)
    {
      ScaledValueAt(counts, CountTotal(counts) as real, k);
    }
  }

  lemma ScaledValueAt(counts: seq<nat>, total: real, k: nat)
    requires total > 0.0 && k < |counts|
    ensures Scaled(counts, 100.0 / total)[k] == 100.0 * (counts[k] as real) / total
  {
    ScaledAt(counts, 100.0 / total, k);
    Reassociate(counts[k] as real, total);
  }

  lemma ScaleBound(c: real, total: real, f: real)
    requires 0.0 < c <= total && f > 0.0 && total * f == 100.0
    ensures 0.0 < c * f <= 100.0
  {
    ScaleMonotone(c, total, f);
  }

  lemma ScaleMonotone(a: real, b: real, f: real)
    requires a <= b && f >= 0.0
    ensures a * f <= b * f
  {
  }

  lemma {:induction false} PositiveTotal(counts: seq<nat>)
    requires PositiveCounts(counts) && counts != []
    ensures CountTotal(counts) > 0
  {
  }

  lemma ScaledMonotone(counts: seq<nat>, f: real, a: nat, b: nat)
    requires f >= 0.0 && a < |counts| && b < |counts| && counts[a] <= counts[b]
    ensures Scaled(counts, f)[a] <= Scaled(counts, f)[b]
  {
    ScaledAt(counts, f, a);
    ScaledAt(counts, f, b);
    ScaleMonotone(counts[a] as real, counts[b] as real, f);
  }

  lemma ScaledBounded(counts: seq<nat>, f: real, k: nat)
    requires PositiveCounts(counts) && k < |counts|
    requires f > 0.0 && (CountTotal(counts) as real) * f == 100.0
    ensures 0.0 < Scaled(counts, f)[k] <= 100.0
  {
    CountBelowTotal(counts, k);
    var c := counts[k] as real;
    assert 0.0 < c;
    ScaleBound(c, CountTotal(counts) as real, f);
    assert 0.0 < c * f;
    ScaledAt(counts, f, k);
    assert Scaled(counts, f)[k] == c * f;
  }

  /** What scaling the counts by `f`, with `total * f` one hundred, gives: the facts behind `PercentShares`. */
  lemma ScaledShares(counts: seq<nat>, f: real)
    requires PositiveCounts(counts) && f > 0.0 && (CountTotal(counts) as real) * f == 100.0
    ensures forall k :: 0 <= k < |counts| ==> 0.0 < Scaled(counts, f)[k] <= 100.0
    ensures Sum(Scaled(counts, f)) == 100.0
    ensures forall a, b :: 0 <= a < |counts| && 0 <= b < |counts| && counts[a] <= counts[b]
                           ==> Scaled(counts, f)[a] <= Scaled(counts, f)[b]
  {
    SumScaled(counts, f);
    forall k | 0 <= k < |counts| ensures 0.0 < Scaled(counts, f)[k] <= 100.0 {
      ScaledBounded(counts, f, k);
    }
    forall a, b | 0 <= a < |counts| && 0 <= b < |counts| && counts[a] <= counts[b]
      ensures Scaled(counts, f)[a] <= Scaled(counts, f)[b]
    {
      ScaledMonotone(counts, f, a, b);
    }
  }

  /**
   * `value_counts(normalize=True) * 100`: the share of each listed party, in
   * percent of all counted votes: each share is one hundred times the
   * party's count divided by the number of counted votes. The shares lie in (0, 100],
   * add up to 100 whenever any vote was counted, and keep the order of the
   * counts.
   */
  function PercentShares(counts: seq<nat>): (shares: seq<real>)
    requires PositiveCounts(counts)
    ensures |shares| == |counts|
    ensures forall k :: 0 <= k < |shares| ==> 0.0 < shares[k] <= 100.0
    ensures counts != [] ==> Sum(shares) == 100.0
    ensures forall a, b :: 0 <= a < |counts| && 0 <= b < |counts| && counts[a] <= counts[b] ==> shares[a] <= shares[b]
    ensures forall k :: 0 <= k < |counts| ==> shares[k] == 100.0 * (counts[k] as real) / (CountTotal(counts) as real)
  {
    if counts == [] then []
    else
      PositiveTotal(counts);
      var f := 100.0 / (CountTotal(counts) as real);
      ScaleOfTotal(CountTotal(counts) as real);
      ScaledShares(counts, f);
      ScaledValues(counts);
      Scaled(counts, f)
  }
}
