/**
 * Coalitions and their ranking.
 *
 * A coalition is the tuple the finder stores, `(party, ..., share)`: the names
 * of its two or three parties followed by their combined second-vote share.
 * The finder ranks each list with `sorted(..., key=share, reverse=True)`,
 * Python's stable sort in descending order: larger shares come first, and
 * coalitions with equal shares keep the order in which they were generated.
 */
module Ranking {

  datatype Coalition = Coalition(members: seq<string>, share: real)

  /** Shares never increase from left to right. */
  ghost predicate SortedDesc(s: seq<Coalition>)
  {
    forall p, q :: 0 <= p < q < |s| ==> s[p].share >= s[q].share
  }

  /** The coalitions of `s` whose combined share is exactly `v`, in the order of `s`. */
  function WithShare(s: seq<Coalition>, v: real): (r: seq<Coalition>)
    ensures |r| <= |s|
  {
    if s == [] then []
    else (if s[0].share == v then [s[0]] else []) + WithShare(s[1..], v)
  }

  /** How many times `x` is listed in `s`. */
  function Occurrences(s: seq<Coalition>, x: Coalition): (n: nat)
  {
    if s == [] then 0
    else
      Occurrences(s[..|s| - 1], x) + (if s[|s| - 1] == x then 1 else 0)
  }

  lemma {:induction false} OccurrencesAppend(s: seq<Coalition>, t: seq<Coalition>, x: Coalition)
    ensures Occurrences(s + t, x) == Occurrences(s, x) + Occurrences(t, x)
  {
    if t == [] {
      assert s + t == s;
    } else {
      OccurrencesAppend(s, t[..|t| - 1], x);
      assert (s + t)[..|s + t| - 1] == s + t[..|t| - 1];
    }
  }

  lemma {:induction false} OccurrencesInMultiset(s: seq<Coalition>, x: Coalition)
    ensures Occurrences(s, x) == multiset(s)[x]
  {
    if s != [] {
      OccurrencesInMultiset(s[..|s| - 1], x);
      assert s == s[..|s| - 1] + [s[|s| - 1]];
    }
  }

  /**
   * Puts `x` in front of the first coalition whose share is not larger than
   * its own: ahead of every coalition with an equal share, behind every
   * coalition with a larger one.
   */
  function Insert(x: Coalition, s: seq<Coalition>): (r: seq<Coalition>)
    ensures multiset(r) == multiset(s) + multiset{x}
  {
    if s == [] || x.share >= s[0].share then [x] + s
    else
      assert s == [s[0]] + s[1..];
      [s[0]] + Insert(x, s[1..])
  }

  /**
   * A coalition ranked ahead of every coalition of `tail` and of `x` stays
   * ahead of every coalition of any rearrangement of `tail` and `x`.
   */
  lemma BoundedByHead(head: Coalition, tail: seq<Coalition>, x: Coalition, rest: seq<Coalition>)
    requires forall q :: 0 <= q < |tail| ==> head.share >= tail[q].share
    requires head.share >= x.share
    requires multiset(rest) == multiset(tail) + multiset{x}
    ensures forall q :: 0 <= q < |rest| ==> head.share >= rest[q].share
  {
    forall q | 0 <= q < |rest| ensures head.share >= rest[q].share {
      assert rest[q] in multiset(rest);
      if rest[q] != x {
        assert rest[q] in multiset(tail);
        var m :| 0 <= m < |tail| && tail[m] == rest[q];
      }
    }
  }

  /** Inserting into a ranking gives a ranking. */
  lemma {:induction false} InsertKeepsOrder(x: Coalition, s: seq<Coalition>)
    requires SortedDesc(s)
    ensures SortedDesc(Insert(x, s))
  {
    if s != [] && x.share < s[0].share {
      var rest := Insert(x, s[1..]);
      InsertKeepsOrder(x, s[1..]);
      BoundedByHead(s[0], s[1..], x, rest);
    }
  }

  /**
   * `sorted(s, key=lambda c: c.share, reverse=True)`: a permutation of `s`
   * whose shares never increase.
   */
  function SortByShareDesc(s: seq<Coalition>): (r: seq<Coalition>)
    ensures multiset(r) == multiset(s)
    ensures SortedDesc(r)
  {
    if s == [] then []
    else
      assert s == [s[0]] + s[1..];
      InsertKeepsOrder(s[0], SortByShareDesc(s[1..]));
      Insert(s[0], SortByShareDesc(s[1..]))
  }

  lemma OccurrencesPositive(s: seq<Coalition>, x: Coalition)
    ensures Occurrences(s, x) > 0 <==> x in s
  {
    OccurrencesInMultiset(s, x);
  }

  /** Sorting changes neither which coalitions are listed nor how often. */
  lemma SortKeepsOccurrences(s: seq<Coalition>, x: Coalition)
    ensures Occurrences(SortByShareDesc(s), x) == Occurrences(s, x)
    ensures x in SortByShareDesc(s) <==> x in s
  {
    assert x in SortByShareDesc(s) <==> x in multiset(SortByShareDesc(s));
    OccurrencesInMultiset(s, x);
    OccurrencesInMultiset(SortByShareDesc(s), x);
  }

  lemma WithShareCons(c: Coalition, s: seq<Coalition>, v: real)
    ensures WithShare([c] + s, v) == (if c.share == v then [c] else []) + WithShare(s, v)
  {
    assert ([c] + s)[1..] == s;
  }

  lemma {:induction false} InsertWithShare(x: Coalition, s: seq<Coalition>, v: real)
    ensures WithShare(Insert(x, s), v) == (if x.share == v then [x] else []) + WithShare(s, v)
  {
    if s == [] || x.share >= s[0].share {
      WithShareCons(x, s, v);
    } else {
      var rest := Insert(x, s[1..]);
      InsertWithShare(x, s[1..], v);
      WithShareCons(s[0], rest, v);
      WithShareCons(s[0], s[1..], v);
      assert [s[0]] + s[1..] == s;
      if x.share == v {
        assert WithShare(s, v) == WithShare(s[1..], v);
      } else {
        assert WithShare(rest, v) == WithShare(s[1..], v);
      }
    }
  }

  /**
   * Stability: the coalitions that share any one value of `share` come out of
   * the sort in exactly the order they went in.
   */
  lemma {:induction false} SortIsStable(s: seq<Coalition>, v: real)
    ensures WithShare(SortByShareDesc(s), v) == WithShare(s, v)
  {
    if s != [] {
      SortIsStable(s[1..], v);
      InsertWithShare(s[0], SortByShareDesc(s[1..]), v);
    }
  }

  lemma {:induction false} WithShareMember(s: seq<Coalition>, v: real, c: Coalition)
    ensures c in WithShare(s, v) <==> c in s && c.share == v
  {
    if s != [] {
      WithShareMember(s[1..], v, c);
      assert s == [s[0]] + s[1..];
    }
  }

  lemma HeadShareListed(s: seq<Coalition>)
    ensures s != [] ==> WithShare(s, s[0].share) != []
  {
  }

  /** Two lists with the same head that agree on the coalitions with share `v` agree on them after the head too. */
  lemma SameHeadSameTails(r1: seq<Coalition>, r2: seq<Coalition>, v: real)
    requires r1 != [] && r2 != [] && r1[0] == r2[0]
    requires WithShare(r1, v) == WithShare(r2, v)
    ensures WithShare(r1[1..], v) == WithShare(r2[1..], v)
  {
    var head := if r1[0].share == v then [r1[0]] else [];
    var w1, w2 := WithShare(r1[1..], v), WithShare(r2[1..], v);
    WithShareCons(r1[0], r1[1..], v);
    WithShareCons(r2[0], r2[1..], v);
    assert [r1[0]] + r1[1..] == r1 && [r2[0]] + r2[1..] == r2;
    assert head + w1 == head + w2;
    assert w1 == (head + w1)[|head|..] == (head + w2)[|head|..] == w2;
  }

  /**
   * Two rankings that are both sorted in descending order and agree on the
   * order of every group of equal shares are the same ranking.
   */
  lemma {:induction false} SortedTiesDetermineRanking(r1: seq<Coalition>, r2: seq<Coalition>)
    requires SortedDesc(r1) && SortedDesc(r2)
    requires forall v :: WithShare(r1, v) == WithShare(r2, v)
    ensures r1 == r2
  {
    if r1 == [] || r2 == [] {
      HeadShareListed(r1);
      HeadShareListed(r2);
    } else {
      var m1, m2 := r1[0].share, r2[0].share;
      assert m2 >= m1 by {
        WithShareMember(r2, m1, r1[0]);
        var p :| 0 <= p < |r2| && r2[p] == r1[0];
      }
      assert m1 >= m2 by {
        WithShareMember(r1, m2, r2[0]);
        var p :| 0 <= p < |r1| && r1[p] == r2[0];
      }
      assert r1[0] == WithShare(r1, m1)[0] == WithShare(r2, m1)[0] == r2[0];
      forall v ensures WithShare(r1[1..], v) == WithShare(r2[1..], v) {
        SameHeadSameTails(r1, r2, v);
      }
      SortedTiesDetermineRanking(r1[1..], r2[1..]);
      assert r1 == [r1[0]] + r1[1..] && r2 == [r2[0]] + r2[1..];
    }
  }

  /**
   * The ranking is the only arrangement that is sorted in descending order and
   * keeps every group of equal shares in the order of the input, so it is the
   * result of any stable descending sort by share.
   */
  lemma StableSortIsUnique(s: seq<Coalition>, r: seq<Coalition>)
    requires SortedDesc(r)
    requires forall v :: WithShare(r, v) == WithShare(s, v)
    ensures r == SortByShareDesc(s)
  {
    forall v ensures WithShare(r, v) == WithShare(SortByShareDesc(s), v) {
      SortIsStable(s, v);
    }
    SortedTiesDetermineRanking(r, SortByShareDesc(s));
  }

  /** A ranking is left as it is by the sort, so sorting twice is sorting once. */
  lemma SortKeepsRanking(s: seq<Coalition>)
    requires SortedDesc(s)
    ensures SortByShareDesc(s) == s
  {
    StableSortIsUnique(s, s);
  }
}
