/**
 * Python list comprehensions with a condition, `[x for x in s if p(x)]`, and
 * the facts the listing pipelines rely on: order is kept, membership is exactly
 * the condition, and successive filters compose.
 */
module Seqs {
  import opened Wrappers

  /** `[x for x in s if p(x)]`. */
  function Filter<T>(s: seq<T>, p: T -> bool): (r: seq<T>)
    ensures |r| <= |s|
    ensures forall i :: 0 <= i < |r| ==> p(r[i])
    ensures forall i :: 0 <= i < |s| && p(s[i]) ==> s[i] in r
    ensures forall i :: 0 <= i < |r| ==> r[i] in s
    decreases |s|
  {
    if |s| == 0 then []
    else if p(s[0]) then [s[0]] + Filter(s[1..], p)
    else Filter(s[1..], p)
  }

  /** Filtering distributes over concatenation, so relative order is kept. */
  lemma {:induction false} FilterAppend<T>(a: seq<T>, b: seq<T>, p: T -> bool)
    ensures Filter(a + b, p) == Filter(a, p) + Filter(b, p)
    decreases |a|
  {
    if |a| == 0 {
      assert a + b == b;
    } else {
      assert (a + b)[0] == a[0];
      assert (a + b)[1..] == a[1..] + b;
      FilterAppend(a[1..], b, p);
    }
  }

  /** Two filters in a row are one filter by the conjunction. */
  lemma {:induction false} FilterFilter<T>(s: seq<T>, p: T -> bool, q: T -> bool)
    ensures Filter(Filter(s, p), q) == Filter(s, x => p(x) && q(x))
    decreases |s|
  {
    if |s| > 0 {
      FilterFilter(s[1..], p, q);
      if p(s[0]) {
        assert Filter(s, p)[1..] == Filter(s[1..], p);
      }
    }
  }

  /** Filters with the same verdict on every element give the same result. */
  lemma {:induction false} FilterExt<T>(s: seq<T>, p: T -> bool, q: T -> bool)
    requires forall i :: 0 <= i < |s| ==> p(s[i]) == q(s[i])
    ensures Filter(s, p) == Filter(s, q)
    decreases |s|
  {
    if |s| > 0 {
      FilterExt(s[1..], p, q);
    }
  }

  /** A filter that keeps everything is the identity. */
  lemma {:induction false} FilterAll<T>(s: seq<T>, p: T -> bool)
    requires forall i :: 0 <= i < |s| ==> p(s[i])
    ensures Filter(s, p) == s
    decreases |s|
  {
    if |s| > 0 {
      FilterAll(s[1..], p);
      assert s == [s[0]] + s[1..];
    }
  }

  /** `sum(1 for x in s if p(x))`. */
  function Count<T>(s: seq<T>, p: T -> bool): (n: nat)
    ensures n <= |s|
    ensures n == |Filter(s, p)|
    decreases |s|
  {
    if |s| == 0 then 0
    else (if p(s[0]) then 1 else 0) + Count(s[1..], p)
  }

  /** `[f(x) for x in s]`. */
  function Map<T, U>(s: seq<T>, f: T -> U): (r: seq<U>)
    ensures |r| == |s|
    ensures forall i :: 0 <= i < |s| ==> r[i] == f(s[i])
    decreases |s|
  {
    if |s| == 0 then [] else [f(s[0])] + Map(s[1..], f)
  }

  /** `[f(x) for x in s if f(x) is not None]`: the results `f` gives, in order. */
  function Choose<T, U>(s: seq<T>, f: T -> Option<U>): (r: seq<U>)
    ensures |r| <= |s|
    ensures forall i :: 0 <= i < |r| ==> exists j :: 0 <= j < |s| && f(s[j]) == Some(r[i])
    ensures forall j :: 0 <= j < |s| && f(s[j]).Some? ==> f(s[j]).value in r
    decreases |s|
  {
    if |s| == 0 then []
    else
      var rest := Choose(s[1..], f);
      var r := if f(s[0]).Some? then [f(s[0]).value] + rest else rest;
      forall i | 0 <= i < |r| ensures exists j :: 0 <= j < |s| && f(s[j]) == Some(r[i]) {
        if !(f(s[0]).Some? && i == 0) {
          var k := if f(s[0]).Some? then i - 1 else i;
          assert r[i] == rest[k];
          var j :| 0 <= j < |s[1..]| && f(s[1..][j]) == Some(rest[k]);
          assert s[1..][j] == s[j + 1];
        }
      }
      forall j | 0 <= j < |s| && f(s[j]).Some? ensures f(s[j]).value in r {
        if j > 0 { assert s[1..][j - 1] == s[j]; }
      }
      r
  }

  /**
   * Choosing from two runs gives the choices of the first run followed by
   * those of the second: every result sits at its element's place.
   */
  lemma {:induction false} ChooseAppend<T, U>(a: seq<T>, b: seq<T>, f: T -> Option<U>)
    ensures Choose(a + b, f) == Choose(a, f) + Choose(b, f)
    decreases |a|
  {
    if |a| == 0 {
      assert a + b == b;
    } else {
      assert (a + b)[0] == a[0];
      assert (a + b)[1..] == a[1..] + b;
      ChooseAppend(a[1..], b, f);
    }
  }

  /** Choosing from one element gives its result, if any. */
  lemma ChooseOne<T, U>(x: T, f: T -> Option<U>)
    ensures Choose([x], f) == if f(x).Some? then [f(x).value] else []
  {
    assert [x][1..] == [];
  }

  /** Entry `names[i]` is in `fetched` and files its value under `key`. */
  predicate FiledAt<V>(names: seq<string>, keyOf: string -> Option<string>, fetched: map<string, V>,
                       i: int, key: string) {
    0 <= i < |names| && names[i] in fetched && keyOf(names[i]) == Some(key)
  }

  /** `names[i]` is the last entry filed under `key`. */
  predicate LastFiled<V>(names: seq<string>, keyOf: string -> Option<string>, fetched: map<string, V>,
                         i: int, key: string) {
    FiledAt(names, keyOf, fetched, i, key) && forall j :: i < j < |names| ==> !FiledAt(names, keyOf, fetched, j, key)
  }

  /**
   * The dict built by `for name in names: d[key_of(name)] = fetched[name]`,
   * skipping names without a key or a fetched value: each key holds the
   * value of the last name filed under it.
   */
  function LastWins<V>(names: seq<string>, keyOf: string -> Option<string>, fetched: map<string, V>): (r: map<string, V>)
    ensures forall key :: key in r ==> exists i :: LastFiled(names, keyOf, fetched, i, key) && r[key] == fetched[names[i]]
    ensures forall i :: 0 <= i < |names| && names[i] in fetched && keyOf(names[i]).Some? ==> keyOf(names[i]).value in r
    decreases |names|
  {
    if |names| == 0 then map[]
    else
      var n := |names| - 1;
      var front := names[..n];
      var r := LastWins(front, keyOf, fetched);
      assert forall i :: 0 <= i < n ==> front[i] == names[i];
      var q := if names[n] in fetched && keyOf(names[n]).Some? then r[keyOf(names[n]).value := fetched[names[n]]] else r;
      forall key | key in q
        ensures exists i :: LastFiled(names, keyOf, fetched, i, key) && q[key] == fetched[names[i]]
      {
        LastWinsKey(names, front, keyOf, fetched, r, q, key);
      }
      q
  }

  /** One more name: its key now holds its value, every other key keeps its last filing. */
  lemma LastWinsKey<V>(names: seq<string>, front: seq<string>, keyOf: string -> Option<string>,
                       fetched: map<string, V>, r: map<string, V>, q: map<string, V>, key: string)
    requires |names| > 0 && front == names[..|names| - 1]
    requires forall key :: key in r ==> exists i :: LastFiled(front, keyOf, fetched, i, key) && r[key] == fetched[front[i]]
    requires var last := names[|names| - 1];
             q == if last in fetched && keyOf(last).Some? then r[keyOf(last).value := fetched[last]] else r
    requires key in q
    ensures exists i :: LastFiled(names, keyOf, fetched, i, key) && q[key] == fetched[names[i]]
  {
    var n := |names| - 1;
    if names[n] in fetched && keyOf(names[n]) == Some(key) {
      assert LastFiled(names, keyOf, fetched, n, key);
    } else {
      var i :| LastFiled(front, keyOf, fetched, i, key) && r[key] == fetched[front[i]];
      forall j | i < j < |names| ensures !FiledAt(names, keyOf, fetched, j, key) {
        if j < n { assert front[j] == names[j]; assert !FiledAt(front, keyOf, fetched, j, key); }
      }
      assert front[i] == names[i];
      assert FiledAt(names, keyOf, fetched, i, key);
      assert LastFiled(names, keyOf, fetched, i, key);
    }
  }

  /** The elements of `s` have no repetition. */
  predicate Distinct<T(==)>(s: seq<T>) {
    forall i, j :: 0 <= i < j < |s| ==> s[i] != s[j]
  }

  /** `a` and `b` have one length and `ok` holds of the elements at each index. */
  predicate Paired<A, B>(a: seq<A>, b: seq<B>, ok: (A, B) -> bool) {
    |a| == |b| && forall i :: 0 <= i < |a| ==> ok(a[i], b[i])
  }

  lemma PairedCons<A, B>(x: A, y: B, a: seq<A>, b: seq<B>, ok: (A, B) -> bool)
    requires ok(x, y) && Paired(a, b, ok)
    ensures Paired([x] + a, [y] + b, ok)
  {
    forall i | 0 <= i < |[x] + a| ensures ok(([x] + a)[i], ([y] + b)[i]) {
      if i > 0 { assert ([x] + a)[i] == a[i - 1] && ([y] + b)[i] == b[i - 1]; }
    }
  }

  /** The elements of `s` strictly increase. */
  predicate Ascending(s: seq<nat>) {
    forall i, j :: 0 <= i < j < |s| ==> s[i] < s[j]
  }

  lemma AscendingCons(x: nat, s: seq<nat>)
    requires Ascending(s) && forall i :: 0 <= i < |s| ==> x < s[i]
    ensures Ascending([x] + s)
  {
    forall i, j | 0 <= i < j < |[x] + s| ensures ([x] + s)[i] < ([x] + s)[j] {
      if i > 0 { assert ([x] + s)[i] == s[i - 1]; }
      assert ([x] + s)[j] == s[j - 1];
    }
  }

  /** `next((p for p in range(from, last + 1) if ok(p)), None)`: the least position where `ok` holds. */
  function FirstFrom(from: nat, last: nat, ok: nat -> bool): (r: Option<nat>)
    requires from <= last
    ensures r.Some? ==> from <= r.value <= last && ok(r.value)
    ensures r.Some? ==> forall p :: from <= p < r.value ==> !ok(p)
    ensures r.None? ==> forall p :: from <= p <= last ==> !ok(p)
    decreases last - from
  {
    if ok(from) then Some(from)
    else if from == last then None
    else FirstFrom(from + 1, last, ok)
  }
}
