/**
 * Python's `sorted(s, key=...)` and `list.sort(key=...)`: a stable sort by a
 * key. Keys are sequences of integers compared lexicographically, which is how
 * Python compares strings (by code point) and one-element tuples; an integer
 * key `k` is the sequence `[k]`, and `reverse=True` on integer keys is the key
 * `[-k]` (Python's reverse sort is also stable).
 */
module StableSort {
  import Seqs

  /** Lexicographic `a <= b`. */
  predicate LexLe(a: seq<int>, b: seq<int>)
    decreases |a|
  {
    |a| == 0 || (|b| > 0 && (a[0] < b[0] || (a[0] == b[0] && LexLe(a[1..], b[1..]))))
  }

  lemma {:induction false} LexLeRefl(a: seq<int>)
    ensures LexLe(a, a)
    decreases |a|
  {
    if |a| > 0 {
      LexLeRefl(a[1..]);
    }
  }

  lemma {:induction false} LexLeTotal(a: seq<int>, b: seq<int>)
    ensures LexLe(a, b) || LexLe(b, a)
    decreases |a|
  {
    if |a| > 0 && |b| > 0 && a[0] == b[0] {
      LexLeTotal(a[1..], b[1..]);
    }
  }

  lemma {:induction false} LexLeTrans(a: seq<int>, b: seq<int>, c: seq<int>)
    requires LexLe(a, b) && LexLe(b, c)
    ensures LexLe(a, c)
    decreases |a|
  {
    if |a| > 0 && a[0] == b[0] && b[0] == c[0] {
      LexLeTrans(a[1..], b[1..], c[1..]);
    }
  }

  lemma {:induction false} LexLeAntisym(a: seq<int>, b: seq<int>)
    requires LexLe(a, b) && LexLe(b, a)
    ensures a == b
    decreases |a|
  {
    if |a| > 0 {
      LexLeAntisym(a[1..], b[1..]);
      assert a == [a[0]] + a[1..] && b == [b[0]] + b[1..];
    }
  }

  /** One-element keys compare as their integers. */
  lemma LexLeSingle(x: int, y: int)
    ensures LexLe([x], [y]) <==> x <= y
  {
    assert [x][1..] == [];
  }

  /** The code points of a string: Python orders strings by this key. */
  function StrKey(s: string): (k: seq<int>)
    ensures |k| == |s|
    ensures forall i :: 0 <= i < |s| ==> k[i] == s[i] as int
  {
    seq(|s|, i requires 0 <= i < |s| => s[i] as int)
  }

  lemma StrKeyInjective(a: string, b: string)
    requires StrKey(a) == StrKey(b)
    ensures a == b
  {
    assert forall i :: 0 <= i < |a| ==> a[i] as int == b[i] as int;
  }

  predicate Sorted<T>(s: seq<T>, key: T -> seq<int>) {
    forall i, j :: 0 <= i < j < |s| ==> LexLe(key(s[i]), key(s[j]))
  }

  /** No two elements share a key. */
  predicate KeysDistinct<T>(s: seq<T>, key: T -> seq<int>) {
    forall i, j :: 0 <= i < j < |s| ==> key(s[i]) != key(s[j])
  }

  /** Put `x` in front of the first element whose key is not below its own. */
  function Insert<T(==)>(x: T, s: seq<T>, key: T -> seq<int>): (r: seq<T>)
    ensures multiset(r) == multiset(s) + multiset{x}
    ensures |r| == |s| + 1
    decreases |s|
  {
    if |s| == 0 then [x]
    else if LexLe(key(x), key(s[0])) then [x] + s
    else
      assert s == [s[0]] + s[1..];
      [s[0]] + Insert(x, s[1..], key)
  }

  /** Insertion sort: sort the tail, then insert the head in front of its equals. */
  function SortBy<T(==)>(s: seq<T>, key: T -> seq<int>): (r: seq<T>)
    ensures multiset(r) == multiset(s)
    ensures |r| == |s|
    ensures Sorted(r, key)
    decreases |s|
  {
    if |s| == 0 then []
    else
      var t := SortBy(s[1..], key);
      InsertSorted(s[0], t, key);
      SortHeadTail(s);
      Insert(s[0], t, key)
  }

  lemma SortHeadTail<T>(s: seq<T>)
    requires |s| > 0
    ensures multiset(s) == multiset(s[1..]) + multiset{s[0]}
  {
    assert s == [s[0]] + s[1..];
  }

  lemma {:induction false} InsertSorted<T>(x: T, s: seq<T>, key: T -> seq<int>)
    requires Sorted(s, key)
    ensures Sorted(Insert(x, s, key), key)
    decreases |s|
  {
    if |s| > 0 && LexLe(key(x), key(s[0])) {
      forall j | 0 <= j < |s|
        ensures LexLe(key(x), key(s[j]))
      {
        if j > 0 {
          LexLeTrans(key(x), key(s[0]), key(s[j]));
        }
      }
    } else if |s| > 0 {
      LexLeTotal(key(x), key(s[0]));
      InsertSorted(x, s[1..], key);
      var t := Insert(x, s[1..], key);
      var r := [s[0]] + t;
      forall j | 0 < j < |r|
        ensures LexLe(key(s[0]), key(r[j]))
      {
        assert r[j] in multiset(t);
        assert r[j] in multiset(s[1..]) + multiset{x};
        if r[j] != x {
          assert r[j] in s[1..];
          var k :| 0 <= k < |s[1..]| && s[1..][k] == r[j];
          assert s[k + 1] == r[j];
        }
      }
      forall i, j | 0 <= i < j < |r|
        ensures LexLe(key(r[i]), key(r[j]))
      {
        if i > 0 {
          assert r[i] == t[i - 1] && r[j] == t[j - 1];
        }
      }
    }
  }

  /** The elements whose key is `k`. */
  function KeyIs<T>(key: T -> seq<int>, k: seq<int>): T -> bool {
    x => key(x) == k
  }

  /**
   * Stability: among the elements with any one key, the sort keeps the input
   * order.
   */
  lemma {:induction false} SortStable<T>(s: seq<T>, key: T -> seq<int>, k: seq<int>)
    ensures Seqs.Filter(SortBy(s, key), KeyIs(key, k)) == Seqs.Filter(s, KeyIs(key, k))
    decreases |s|
  {
    if |s| > 0 {
      SortStable(s[1..], key, k);
      InsertStable(s[0], SortBy(s[1..], key), key, k);
    }
  }

  lemma {:induction false} InsertStable<T>(x: T, s: seq<T>, key: T -> seq<int>, k: seq<int>)
    ensures Seqs.Filter(Insert(x, s, key), KeyIs(key, k)) == Seqs.Filter([x] + s, KeyIs(key, k))
    decreases |s|
  {
    if |s| > 0 && !LexLe(key(x), key(s[0])) {
      InsertStable(x, s[1..], key, k);
      LexLeRefl(key(x));
      assert key(x) != key(s[0]);
      assert ([x] + s)[1..] == s;
      assert ([x] + s[1..])[1..] == s[1..];
      assert ([s[0]] + Insert(x, s[1..], key))[1..] == Insert(x, s[1..], key);
    }
  }

  /** Sorting never makes two elements share a key. */
  lemma {:induction false} SortKeysDistinct<T>(s: seq<T>, key: T -> seq<int>)
    requires KeysDistinct(s, key)
    ensures KeysDistinct(SortBy(s, key), key)
    decreases |s|
  {
    if |s| > 0 {
      var t := SortBy(s[1..], key);
      SortKeysDistinct(s[1..], key);
      forall y | y in t
        ensures key(y) != key(s[0])
      {
        assert y in multiset(s[1..]);
        var k :| 0 <= k < |s[1..]| && s[1..][k] == y;
        assert s[k + 1] == y;
      }
      InsertKeysDistinct(s[0], t, key);
    }
  }

  lemma {:induction false} InsertKeysDistinct<T>(x: T, s: seq<T>, key: T -> seq<int>)
    requires KeysDistinct(s, key)
    requires forall y :: y in s ==> key(y) != key(x)
    ensures KeysDistinct(Insert(x, s, key), key)
    decreases |s|
  {
    if |s| > 0 && !LexLe(key(x), key(s[0])) {
      InsertKeysDistinct(x, s[1..], key);
      var t := Insert(x, s[1..], key);
      var r := [s[0]] + t;
      forall j | 0 < j < |r|
        ensures key(r[j]) != key(s[0])
      {
        assert r[j] in multiset(t);
        if r[j] != x {
          assert r[j] in multiset(s[1..]);
          var k :| 0 <= k < |s[1..]| && s[1..][k] == r[j];
          assert s[k + 1] == r[j];
        }
      }
      forall i, j | 0 <= i < j < |r|
        ensures key(r[i]) != key(r[j])
      {
        if i > 0 {
          assert r[i] == t[i - 1] && r[j] == t[j - 1];
        }
      }
    }
  }
}
