/**
 * The two `sorted(...)` calls of the source, on lists of dictionary items:
 * by key ascending (Python compares strings code point by code point), and
 * by count descending with `reverse=True`, which Python keeps stable.
 * Both are insertion sorts stated by what they guarantee: a permutation of
 * the input, in order, and (for the stable one) equal counts in input order.
 */
module Sorting {
  import opened Counting

  /** Python's `a < b` on `str`: lexicographic by code point, a proper prefix first. */
  predicate StrLt(a: string, b: string) {
    |b| > 0 && (|a| == 0 || a[0] < b[0] || (a[0] == b[0] && StrLt(a[1..], b[1..])))
  }

  lemma {:induction false} StrLtIrreflexive(a: string)
    ensures !StrLt(a, a)
  {
    if |a| > 0 {
      StrLtIrreflexive(a[1..]);
    }
  }

  lemma {:induction false} StrLtTransitive(a: string, b: string, c: string)
    requires StrLt(a, b) && StrLt(b, c)
    ensures StrLt(a, c)
  {
    if |a| > 0 && a[0] == b[0] && b[0] == c[0] {
      StrLtTransitive(a[1..], b[1..], c[1..]);
    }
  }

  lemma {:induction false} StrLtTotal(a: string, b: string)
    requires a != b
    ensures StrLt(a, b) || StrLt(b, a)
  {
    if |a| > 0 && |b| > 0 && a[0] == b[0] {
      assert a == [a[0]] + a[1..] && b == [b[0]] + b[1..];
      StrLtTotal(a[1..], b[1..]);
    }
  }

  /** Keys strictly increasing (the keys of a dictionary are distinct). */
  predicate Ascending<V>(s: seq<(string, V)>) {
    forall i, j :: 0 <= i < j < |s| ==> StrLt(s[i].0, s[j].0)
  }

  function InsertByKey<V>(x: (string, V), t: seq<(string, V)>): (r: seq<(string, V)>)
    ensures multiset(r) == multiset(t) + multiset{x}
    ensures |r| == |t| + 1
    ensures forall y :: y in r ==> y == x || y in t
    ensures x in r && forall y :: y in t ==> y in r
  {
    if t == [] || StrLt(x.0, t[0].0) then [x] + t
    else
      assert t == [t[0]] + t[1..];
      [t[0]] + InsertByKey(x, t[1..])
  }

  lemma {:induction false} InsertByKeyAscending<V>(x: (string, V), t: seq<(string, V)>)
    requires Ascending(t)
    requires forall y :: y in t ==> y.0 != x.0
    ensures Ascending(InsertByKey(x, t))
  {
    var r := InsertByKey(x, t);
    if t == [] || StrLt(x.0, t[0].0) {
      forall j | 1 <= j < |r| ensures StrLt(x.0, r[j].0) {
        if j > 1 {
          StrLtTransitive(x.0, t[0].0, t[j - 1].0);
        }
      }
    } else {
      assert t == [t[0]] + t[1..];
      StrLtTotal(x.0, t[0].0);
      InsertByKeyAscending(x, t[1..]);
      var rest := InsertByKey(x, t[1..]);
      assert r == [t[0]] + rest;
      forall j | 0 <= j < |rest| ensures StrLt(t[0].0, rest[j].0) {
        assert rest[j] in rest;
        if rest[j] != x {
          var k :| 0 <= k < |t[1..]| && t[1..][k] == rest[j];
          assert t[k + 1] == rest[j];
        }
      }
    }
  }

  /** `sorted(d.items())` for a dictionary with string keys. */
  function SortByKey<V>(s: seq<(string, V)>): (r: seq<(string, V)>)
    ensures multiset(r) == multiset(s)
    ensures |r| == |s|
    ensures forall y :: y in r ==> y in s
    ensures forall y :: y in s ==> y in r
  {
    if s == [] then []
    else
      assert s == [s[0]] + s[1..];
      InsertByKey(s[0], SortByKey(s[1..]))
  }

  /** On distinct keys the result is strictly ascending by key. */
  lemma {:induction false} SortByKeyAscending<V>(s: seq<(string, V)>)
    requires Distinct(KeysOf(s))
    ensures Ascending(SortByKey(s))
  {
    if s != [] {
      assert s == [s[0]] + s[1..];
      assert KeysOf(s[1..]) == KeysOf(s)[1..];
      SortByKeyAscending(s[1..]);
      forall y | y in SortByKey(s[1..]) ensures y.0 != s[0].0 {
        var k :| 0 <= k < |s[1..]| && s[1..][k] == y;
        assert KeysOf(s)[k + 1] == y.0;
      }
      InsertByKeyAscending(s[0], SortByKey(s[1..]));
    }
  }

  /** Counts never increase from left to right. */
  predicate NonIncreasing<K>(s: seq<(K, nat)>) {
    forall i, j :: 0 <= i < j < |s| ==> s[i].1 >= s[j].1
  }

  /** The subsequence of items whose count is `c`, in order. */
  function WithCount<K>(s: seq<(K, nat)>, c: nat): seq<(K, nat)> {
    if s == [] then [] else (if s[0].1 == c then [s[0]] else []) + WithCount(s[1..], c)
  }

  function InsertByCount<K>(x: (K, nat), t: seq<(K, nat)>): (r: seq<(K, nat)>)
    ensures multiset(r) == multiset(t) + multiset{x}
    ensures |r| == |t| + 1
    ensures forall y :: y in r ==> y == x || y in t
    ensures x in r && forall y :: y in t ==> y in r
  {
    if t == [] || t[0].1 <= x.1 then
      [x] + t
    else
      assert t == [t[0]] + t[1..];
      [t[0]] + InsertByCount(x, t[1..])
  }

  /** Inserting passes over only items of larger count, so among equal counts `x` lands first. */
  lemma {:induction false} InsertByCountStable<K>(x: (K, nat), t: seq<(K, nat)>, c: nat)
    ensures WithCount(InsertByCount(x, t), c) == (if x.1 == c then [x] else []) + WithCount(t, c)
  {
    var r := InsertByCount(x, t);
    if t == [] || t[0].1 <= x.1 {
      assert r[1..] == t;
    } else {
      var rest := InsertByCount(x, t[1..]);
      InsertByCountStable(x, t[1..], c);
      assert r[1..] == rest;
    }
  }

  lemma {:induction false} InsertByCountNonIncreasing<K>(x: (K, nat), t: seq<(K, nat)>)
    requires NonIncreasing(t)
    ensures NonIncreasing(InsertByCount(x, t))
  {
    if t != [] && t[0].1 > x.1 {
      assert t == [t[0]] + t[1..];
      InsertByCountNonIncreasing(x, t[1..]);
      var rest := InsertByCount(x, t[1..]);
      forall j | 0 <= j < |rest| ensures t[0].1 >= rest[j].1 {
        assert rest[j] in rest;
        if rest[j] != x {
          var k :| 0 <= k < |t[1..]| && t[1..][k] == rest[j];
          assert t[k + 1] == rest[j];
        }
      }
    }
  }

  /**
   * `sorted(items, key=count, reverse=True)`: a permutation whose items with
   * equal counts stay in their input order.
   */
  function SortByCountDesc<K>(s: seq<(K, nat)>): (r: seq<(K, nat)>)
    ensures multiset(r) == multiset(s)
    ensures |r| == |s|
    ensures forall y :: y in r ==> y in s
    ensures forall y :: y in s ==> y in r
  {
    if s == [] then []
    else
      assert s == [s[0]] + s[1..];
      InsertByCount(s[0], SortByCountDesc(s[1..]))
  }

  /** Stability: for every count, the items with that count keep their input order. */
  lemma {:induction false} SortByCountDescStable<K>(s: seq<(K, nat)>, c: nat)
    ensures WithCount(SortByCountDesc(s), c) == WithCount(s, c)
  {
    if s != [] {
      SortByCountDescStable(s[1..], c);
      InsertByCountStable(s[0], SortByCountDesc(s[1..]), c);
    }
  }

  lemma {:induction false} SortByCountDescNonIncreasing<K>(s: seq<(K, nat)>)
    ensures NonIncreasing(SortByCountDesc(s))
  {
    if s != [] {
      SortByCountDescNonIncreasing(s[1..]);
      InsertByCountNonIncreasing(s[0], SortByCountDesc(s[1..]));
    }
  }

  /** Putting an item with a fresh key in front keeps the keys distinct. */
  lemma ConsDistinct<K, V>(x: (K, V), t: seq<(K, V)>)
    requires Distinct(KeysOf(t))
    requires forall y :: y in t ==> y.0 != x.0
    ensures Distinct(KeysOf([x] + t))
  {
    var r := [x] + t;
    forall i, j | 0 <= i < j < |r| ensures KeysOf(r)[i] != KeysOf(r)[j] {
      if i > 0 {
        assert KeysOf(t)[i - 1] == r[i].0 && KeysOf(t)[j - 1] == r[j].0;
      } else {
        assert r[j] == t[j - 1];
      }
    }
  }

  /** The converse: the tail of a list with distinct keys has distinct keys, none equal to the head's. */
  lemma UnconsDistinct<K, V>(t: seq<(K, V)>)
    requires t != [] && Distinct(KeysOf(t))
    ensures Distinct(KeysOf(t[1..]))
    ensures forall y :: y in t[1..] ==> y.0 != t[0].0
  {
    forall i, j | 0 <= i < j < |t[1..]| ensures KeysOf(t[1..])[i] != KeysOf(t[1..])[j] {
      assert KeysOf(t)[i + 1] == t[1..][i].0 && KeysOf(t)[j + 1] == t[1..][j].0;
    }
    forall y | y in t[1..] ensures y.0 != t[0].0 {
      var k :| 0 <= k < |t[1..]| && t[1..][k] == y;
      assert KeysOf(t)[k + 1] == y.0 && KeysOf(t)[0] == t[0].0;
    }
  }

  lemma {:induction false} InsertByCountDistinct<K>(x: (K, nat), t: seq<(K, nat)>)
    requires Distinct(KeysOf(t))
    requires forall y :: y in t ==> y.0 != x.0
    ensures Distinct(KeysOf(InsertByCount(x, t)))
  {
    if t == [] || t[0].1 <= x.1 {
      ConsDistinct(x, t);
    } else {
      assert t == [t[0]] + t[1..];
      UnconsDistinct(t);
      InsertByCountDistinct(x, t[1..]);
      var rest := InsertByCount(x, t[1..]);
      assert x.0 != t[0].0;
      ConsDistinct(t[0], rest);
    }
  }

  /** A dictionary's items stay a dictionary's items: sorting keeps the keys distinct. */
  lemma {:induction false} SortByCountDescDistinct<K>(s: seq<(K, nat)>)
    requires Distinct(KeysOf(s))
    ensures Distinct(KeysOf(SortByCountDesc(s)))
  {
    if s != [] {
      UnconsDistinct(s);
      SortByCountDescDistinct(s[1..]);
      InsertByCountDistinct(s[0], SortByCountDesc(s[1..]));
    }
  }

  /** Two lists with the same items have the same keys. */
  lemma SameItemsSameKeys<K, V>(s: seq<(K, V)>, r: seq<(K, V)>)
    requires forall y :: y in r ==> y in s
    requires forall y :: y in s ==> y in r
    ensures forall k :: k in KeysOf(r) ==> k in KeysOf(s)
    ensures forall k :: k in KeysOf(s) ==> k in KeysOf(r)
  {
    forall k | k in KeysOf(r) ensures k in KeysOf(s) {
      var i :| 0 <= i < |r| && KeysOf(r)[i] == k;
      assert r[i] in s;
      var j :| 0 <= j < |s| && s[j] == r[i];
      assert KeysOf(s)[j] == k;
    }
    forall k | k in KeysOf(s) ensures k in KeysOf(r) {
      var i :| 0 <= i < |s| && KeysOf(s)[i] == k;
      assert s[i] in r;
      var j :| 0 <= j < |r| && r[j] == s[i];
      assert KeysOf(r)[j] == k;
    }
  }

  lemma {:induction false} TotalAppend<K>(a: seq<(K, nat)>, b: seq<(K, nat)>)
    ensures Total(a + b) == Total(a) + Total(b)
  {
    if b != [] {
      assert (a + b)[..|a + b| - 1] == a + b[..|b| - 1];
      TotalAppend(a, b[..|b| - 1]);
    } else {
      assert a + b == a;
    }
  }

  /** Reordering items does not change the sum of their counts. */
  lemma {:induction false} TotalPermutation<K>(s: seq<(K, nat)>, r: seq<(K, nat)>)
    requires multiset(s) == multiset(r)
    ensures Total(s) == Total(r)
    decreases |s|
  {
    if s == [] {
      assert |r| == |multiset(r)| == 0;
    } else {
      var front := s[..|s| - 1];
      var x := s[|s| - 1];
      assert s == front + [x];
      assert x in multiset(r);
      var k :| 0 <= k < |r| && r[k] == x;
      var rest := r[..k] + r[k + 1..];
      assert r == r[..k] + [x] + r[k + 1..];
      assert multiset(rest) == multiset(r) - multiset{x};
      assert multiset(front) == multiset(s) - multiset{x};
      TotalPermutation(front, rest);
      TotalAppend(r[..k] + [x], r[k + 1..]);
      TotalAppend(r[..k], [x]);
      TotalAppend(r[..k], r[k + 1..]);
    }
  }
}
