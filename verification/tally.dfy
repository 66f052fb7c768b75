/**
 * Python's `collections.Counter` over a list of strings and its
 * `most_common(n)`: the
 * distinct elements in order of first occurrence with their counts, and the
 * `n` most frequent of them, most frequent first, ties kept in
 * first-occurrence order (`most_common` is a stable sort by count).
 */
module Tally {
  import Seqs
  import StableSort

  /** How often `x` occurs in `s`. */
  function Occ(s: seq<string>, x: string): (n: nat)
    ensures n <= |s|
    ensures n > 0 <==> x in s
    decreases |s|
  {
    if |s| == 0 then 0 else (if s[0] == x then 1 else 0) + Occ(s[1..], x)
  }

  lemma {:induction false} OccSnoc(s: seq<string>, y: string, x: string)
    ensures Occ(s + [y], x) == Occ(s, x) + (if y == x then 1 else 0)
    decreases |s|
  {
    if |s| == 0 {
      assert [y][1..] == [];
    } else {
      assert (s + [y])[1..] == s[1..] + [y];
      OccSnoc(s[1..], y, x);
    }
  }

  /**
   * The keys of a Counter built from `s`: the distinct elements, each placed
   * where it first occurs (a dict keeps insertion order).
   */
  function Uniq(s: seq<string>): (u: seq<string>)
    ensures Seqs.Distinct(u)
    ensures forall x :: x in u <==> x in s
    ensures |u| <= |s|
    ensures |s| > 0 ==> |u| > 0
    decreases |s|
  {
    if |s| == 0 then []
    else
      var u := Uniq(s[..|s| - 1]);
      assert s == s[..|s| - 1] + [s[|s| - 1]];
      if s[|s| - 1] in u then u else u + [s[|s| - 1]]
  }

  /** Keys come in the order of their first occurrences in `s`. */
  lemma {:induction false} UniqFirstOccurrence(s: seq<string>, i: nat, j: nat, k: nat)
    requires i < j < |Uniq(s)| && k < |s| && s[k] == Uniq(s)[j]
    ensures Uniq(s)[i] in s[..k]
    decreases |s|
  {
    var init := s[..|s| - 1];
    var u := Uniq(init);
    var last := s[|s| - 1];
    if j < |u| {
      if k < |s| - 1 {
        assert init[k] == s[k];
        UniqFirstOccurrence(init, i, j, k);
        assert init[..k] == s[..k];
      } else {
        assert u[j] in init;
        var k' :| 0 <= k' < |init| && init[k'] == u[j];
        UniqFirstOccurrence(init, i, j, k');
        assert init[..k'] <= s[..k];
      }
    } else {
      assert Uniq(s) == u + [last] && j == |u|;
      assert last !in u;
      assert u[i] in init;
      assert s[..k] == init;
    }
  }

  /** One Counter entry. */
  datatype Counted = Counted(key: string, count: nat)

  /** `Counter(s).items()`, in key order. */
  function Counts(s: seq<string>): (c: seq<Counted>)
    ensures |c| == |Uniq(s)|
    ensures |s| > 0 ==> |c| > 0
    ensures forall i :: 0 <= i < |c| ==> c[i].key == Uniq(s)[i] && c[i].count == Occ(s, c[i].key)
    ensures forall i :: 0 <= i < |c| ==> c[i].count >= 1
  {
    Seqs.Map(Uniq(s), (x: string) => Counted(x, Occ(s, x)))
  }

  /** Every element of `s` has its entry, holding its number of occurrences. */
  lemma CountsComplete(s: seq<string>, x: string)
    requires x in s
    ensures Counted(x, Occ(s, x)) in Counts(s)
  {
    var u := Uniq(s);
    var i :| 0 <= i < |u| && u[i] == x;
    assert Counts(s)[i] == Counted(x, Occ(s, x));
  }

  /** The sort key of `most_common`: count, largest first. */
  function ByCountDesc(e: Counted): seq<int> {
    [-(e.count as int)]
  }

  /** `Counter.most_common(n)`. */
  function MostCommon(c: seq<Counted>, n: nat): (r: seq<Counted>)
    ensures |r| == if n < |c| then n else |c|
    ensures forall e :: e in r ==> e in c
    ensures forall i, j :: 0 <= i < j < |r| ==> r[i].count >= r[j].count
  {
    var sorted := StableSort.SortBy(c, ByCountDesc);
    var r := if n < |sorted| then sorted[..n] else sorted;
    forall e | e in r ensures e in c {
      assert e in multiset(sorted);
    }
    forall i, j | 0 <= i < j < |r| ensures r[i].count >= r[j].count {
      StableSort.LexLeSingle(-(r[i].count as int), -(r[j].count as int));
    }
    r
  }

  /** Whatever `most_common(n)` leaves out occurs no more often than anything it keeps. */
  lemma MostCommonIsTop(c: seq<Counted>, n: nat, x: Counted, y: Counted)
    requires x in c && x !in MostCommon(c, n) && y in MostCommon(c, n)
    ensures x.count <= y.count
  {
    var sorted := StableSort.SortBy(c, ByCountDesc);
    assert x in multiset(sorted);
    var r := MostCommon(c, n);
    assert r == sorted[..n];
    var j :| 0 <= j < |sorted| && sorted[j] == x;
    var i :| 0 <= i < |r| && r[i] == y;
    assert j >= n;
    assert StableSort.LexLe(ByCountDesc(sorted[i]), ByCountDesc(sorted[j]));
    StableSort.LexLeSingle(-(y.count as int), -(x.count as int));
  }

  /** Entries of equal count keep their Counter order. */
  lemma MostCommonStable(c: seq<Counted>, count: nat)
    ensures Seqs.Filter(StableSort.SortBy(c, ByCountDesc), StableSort.KeyIs(ByCountDesc, [-(count as int)]))
         == Seqs.Filter(c, StableSort.KeyIs(ByCountDesc, [-(count as int)]))
  {
    StableSort.SortStable(c, ByCountDesc, [-(count as int)]);
  }
}
