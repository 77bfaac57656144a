/** Concatenating the lists produced for each element, as nested `for ... append` loops do. */
module Lists {

  function FlatMap<T, U>(s: seq<T>, f: T -> seq<U>): seq<U> {
    if s == [] then [] else FlatMap(s[..|s| - 1], f) + f(s[|s| - 1])
  }

  lemma {:induction false} FlatMapAppend<T, U>(s1: seq<T>, s2: seq<T>, f: T -> seq<U>)
    ensures FlatMap(s1 + s2, f) == FlatMap(s1, f) + FlatMap(s2, f)
  {
    if s2 == [] {
      assert s1 + s2 == s1;
    } else {
      assert (s1 + s2)[..|s1 + s2| - 1] == s1 + s2[..|s2| - 1];
      FlatMapAppend(s1, s2[..|s2| - 1], f);
    }
  }

  lemma {:induction false} FlatMapMembers<T, U>(s: seq<T>, f: T -> seq<U>, y: U)
    ensures y in FlatMap(s, f) <==> exists i :: 0 <= i < |s| && y in f(s[i])
  {
    if s != [] {
      var front := s[..|s| - 1];
      FlatMapMembers(front, f, y);
      if y in f(s[|s| - 1]) {
        assert 0 <= |s| - 1 < |s| && y in f(s[|s| - 1]);
      }
      if exists i :: 0 <= i < |front| && y in f(front[i]) {
        var i :| 0 <= i < |front| && y in f(front[i]);
        assert s[i] == front[i];
      }
      if exists i :: 0 <= i < |s| && y in f(s[i]) {
        var i :| 0 <= i < |s| && y in f(s[i]);
        if i < |front| {
          assert front[i] == s[i];
        }
      }
    }
  }

  /** Total length of all the produced lists. */
  function SumLengths<T, U>(s: seq<T>, f: T -> seq<U>): nat {
    if s == [] then 0 else SumLengths(s[..|s| - 1], f) + |f(s[|s| - 1])|
  }

  lemma {:induction false} FlatMapLength<T, U>(s: seq<T>, f: T -> seq<U>)
    ensures |FlatMap(s, f)| == SumLengths(s, f)
  {
    if s != [] {
      FlatMapLength(s[..|s| - 1], f);
    }
  }

  /** When every element yields at most one item, the result is no longer than the input; exactly as long when each yields one. */
  lemma {:induction false} FlatMapAtMostOne<T, U>(s: seq<T>, f: T -> seq<U>)
    requires forall i :: 0 <= i < |s| ==> |f(s[i])| <= 1
    ensures |FlatMap(s, f)| <= |s|
    ensures (forall i :: 0 <= i < |s| ==> |f(s[i])| == 1) ==> |FlatMap(s, f)| == |s|
  {
    if s != [] {
      var front := s[..|s| - 1];
      assert forall i :: 0 <= i < |front| ==> front[i] == s[i];
      FlatMapAtMostOne(front, f);
    }
  }

  /** Element-wise shorter lists add up to a shorter total; element-wise equal lengths to an equal one. */
  lemma {:induction false} SumLengthsLe<T, U, V>(s: seq<T>, f: T -> seq<U>, g: T -> seq<V>)
    requires forall i :: 0 <= i < |s| ==> |f(s[i])| <= |g(s[i])|
    ensures SumLengths(s, f) <= SumLengths(s, g)
    ensures (forall i :: 0 <= i < |s| ==> |f(s[i])| == |g(s[i])|) ==> SumLengths(s, f) == SumLengths(s, g)
  {
    if s != [] {
      var front := s[..|s| - 1];
      assert forall i :: 0 <= i < |front| ==> front[i] == s[i];
      SumLengthsLe(front, f, g);
    }
  }
}
