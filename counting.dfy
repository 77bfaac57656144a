/**
 * Ordered counters: the model of Python's `defaultdict(int)` as the source
 * uses it. Python dictionaries remember the order in which keys were first
 * inserted, and the later (stable) sorts depend on that order, so a counter
 * is a sequence of distinct keys together with a map from key to count.
 *
 * The specification side is a group-by over a list of observations
 * `(key, weight)`: `Tally` lists each distinct key once, in order of first
 * occurrence, with the sum of its weights.
 */
module Counting {

  predicate Distinct<K(==)>(s: seq<K>) {
    forall i, j :: 0 <= i < j < |s| ==> s[i] != s[j]
  }

  /** The distinct elements of `s`, in order of first occurrence. */
  function FirstSeen<K(==)>(s: seq<K>): (r: seq<K>)
    ensures Distinct(r)
    ensures forall x :: x in r ==> x in s
    ensures forall x :: x in s ==> x in r
    ensures |r| <= |s|
  {
    if s == [] then []
    else
      var p := FirstSeen(s[..|s| - 1]);
      assert s == s[..|s| - 1] + [s[|s| - 1]];
      if s[|s| - 1] in p then p else p + [s[|s| - 1]]
  }

  lemma FirstSeenSnoc<K>(s: seq<K>, x: K)
    ensures FirstSeen(s + [x]) == if x in FirstSeen(s) then FirstSeen(s) else FirstSeen(s) + [x]
  {
    assert (s + [x])[..|s|] == s;
  }

  function KeysOf<K, V>(items: seq<(K, V)>): (r: seq<K>)
    ensures |r| == |items|
    ensures forall i :: 0 <= i < |items| ==> r[i] == items[i].0
  {
    seq(|items|, i requires 0 <= i < |items| => items[i].0)
  }

  /** Sum of the weights of the observations whose key is `k`. */
  function SumFor<K(==)>(obs: seq<(K, nat)>, k: K): nat {
    if obs == [] then 0
    else SumFor(obs[..|obs| - 1], k) + (if obs[|obs| - 1].0 == k then obs[|obs| - 1].1 else 0)
  }

  /** Sum of all weights (of all counts, for a list of counter items). */
  function Total<K>(obs: seq<(K, nat)>): nat {
    if obs == [] then 0 else Total(obs[..|obs| - 1]) + obs[|obs| - 1].1
  }

  /** Each key of `ks` paired with its summed weight in `obs`. */
  function Pairs<K(==)>(ks: seq<K>, obs: seq<(K, nat)>): (r: seq<(K, nat)>)
    ensures |r| == |ks|
    ensures forall i :: 0 <= i < |ks| ==> r[i] == (ks[i], SumFor(obs, ks[i]))
  {
    if ks == [] then [] else Pairs(ks[..|ks| - 1], obs) + [(ks[|ks| - 1], SumFor(obs, ks[|ks| - 1]))]
  }

  /** Group-by-and-sum: what a counter holds after counting `obs` in order. */
  function Tally<K(==)>(obs: seq<(K, nat)>): seq<(K, nat)> {
    Pairs(FirstSeen(KeysOf(obs)), obs)
  }

  /** Tally lists every key of the input exactly once, with its total weight. */
  lemma TallyKeys<K>(obs: seq<(K, nat)>)
    ensures Distinct(KeysOf(Tally(obs)))
    ensures forall k :: k in KeysOf(Tally(obs)) ==> k in KeysOf(obs)
    ensures forall k :: k in KeysOf(obs) ==> k in KeysOf(Tally(obs))
    ensures forall i :: 0 <= i < |Tally(obs)| ==> Tally(obs)[i].1 == SumFor(obs, Tally(obs)[i].0)
  {
    var ks := FirstSeen(KeysOf(obs));
    assert KeysOf(Tally(obs)) == ks;
  }

  lemma {:induction false} SumForEmpty<K>(ks: seq<K>)
    ensures Total(Pairs(ks, [])) == 0
  {
    if ks != [] {
      SumForEmpty(ks[..|ks| - 1]);
    }
  }

  /** One more observation adds its weight to exactly one key of a distinct key list. */
  lemma {:induction false} PairsTotalStep<K>(ks: seq<K>, obs: seq<(K, nat)>, k: K, w: nat)
    requires Distinct(ks)
    ensures Total(Pairs(ks, obs + [(k, w)])) == Total(Pairs(ks, obs)) + (if k in ks then w else 0)
  {
    if ks != [] {
      var front := ks[..|ks| - 1];
      var x := ks[|ks| - 1];
      assert ks == front + [x];
      PairsTotalStep(front, obs, k, w);
      assert (obs + [(k, w)])[..|obs|] == obs;
      assert SumFor(obs + [(k, w)], x) == SumFor(obs, x) + (if k == x then w else 0);
      assert Pairs(ks, obs + [(k, w)])[..|front|] == Pairs(front, obs + [(k, w)]);
      assert Pairs(ks, obs)[..|front|] == Pairs(front, obs);
    }
  }

  /** Summing over any distinct list of keys that covers the input gives the total weight. */
  lemma {:induction false} PairsTotal<K>(ks: seq<K>, obs: seq<(K, nat)>)
    requires Distinct(ks)
    requires forall k :: k in KeysOf(obs) ==> k in ks
    ensures Total(Pairs(ks, obs)) == Total(obs)
  {
    if obs == [] {
      SumForEmpty(ks);
    } else {
      var front := obs[..|obs| - 1];
      var last := obs[|obs| - 1];
      assert obs == front + [last];
      assert KeysOf(obs)[|obs| - 1] == last.0;
      forall k | k in KeysOf(front) ensures k in ks {
        var i :| 0 <= i < |front| && KeysOf(front)[i] == k;
        assert KeysOf(obs)[i] == k;
      }
      PairsTotal(ks, front);
      PairsTotalStep(ks, front, last.0, last.1);
    }
  }

  /** The counts of a tally add up to the total weight of the input: no observation is lost or counted twice. */
  lemma TallyTotal<K>(obs: seq<(K, nat)>)
    ensures Total(Tally(obs)) == Total(obs)
  {
    PairsTotal(FirstSeen(KeysOf(obs)), obs);
  }

  /** With every weight 1, the tally's counts add up to the number of observations. */
  lemma UnitTallyTotal<K>(obs: seq<(K, nat)>)
    requires forall i :: 0 <= i < |obs| ==> obs[i].1 == 1
    ensures Total(Tally(obs)) == |obs|
  {
    TallyTotal(obs);
    UnitTotal(obs);
  }

  /** With every weight 1, the total is the number of observations. */
  lemma {:induction false} UnitTotal<K>(obs: seq<(K, nat)>)
    requires forall i :: 0 <= i < |obs| ==> obs[i].1 == 1
    ensures Total(obs) == |obs|
  {
    if obs != [] {
      UnitTotal(obs[..|obs| - 1]);
    }
  }

  /** Two observations of one key tally to that key with the summed weight. */
  lemma TallySameKey<K>(x: (K, nat), y: (K, nat))
    requires x.0 == y.0
    ensures Tally([x, y]) == [(x.0, x.1 + y.1)]
  {
    var obs := [x, y];
    assert obs[..1] == [x] && [x][..0] == [];
    assert SumFor([x], x.0) == x.1;
    assert SumFor(obs, x.0) == x.1 + y.1;
    assert KeysOf(obs) == [x.0, x.0];
    assert [x.0, x.0][..1] == [x.0] && [x.0][..0] == [];
    assert FirstSeen(KeysOf(obs)) == [x.0];
  }

  /** Two observations of different keys tally to themselves, in order. */
  lemma TallyDifferentKeys<K>(x: (K, nat), y: (K, nat))
    requires x.0 != y.0
    ensures Tally([x, y]) == [x, y]
  {
    var obs := [x, y];
    assert obs[..1] == [x] && [x][..0] == [];
    assert SumFor([x], x.0) == x.1 && SumFor([x], y.0) == 0;
    assert SumFor(obs, x.0) == x.1 && SumFor(obs, y.0) == y.1;
    assert KeysOf(obs) == [x.0, y.0];
    assert [x.0, y.0][..1] == [x.0] && [x.0][..0] == [];
    assert FirstSeen(KeysOf(obs)) == [x.0, y.0];
  }

  /** What one more observation does to the tally's keys and sums. */
  lemma TallyStep<K>(obs: seq<(K, nat)>, k: K, w: nat)
    ensures FirstSeen(KeysOf(obs + [(k, w)]))
         == if k in FirstSeen(KeysOf(obs)) then FirstSeen(KeysOf(obs)) else FirstSeen(KeysOf(obs)) + [k]
    ensures forall j :: SumFor(obs + [(k, w)], j) == SumFor(obs, j) + (if k == j then w else 0)
  {
    assert (obs + [(k, w)])[..|obs|] == obs;
    FirstSeenSnoc(KeysOf(obs), k);
    assert KeysOf(obs + [(k, w)]) == KeysOf(obs) + [k];
  }

  /** `d[k] += n` on the counts of a defaultdict. */
  function Bump<K(==,!new)>(counts: map<K, nat>, k: K, n: nat): (r: map<K, nat>)
    ensures k in r && r[k] == (if k in counts then counts[k] else 0) + n
    ensures forall j :: j != k ==> (j in r <==> j in counts)
    ensures forall j :: j != k && j in counts ==> r[j] == counts[j]
  {
    counts[k := (if k in counts then counts[k] else 0) + n]
  }

  /** The counts after applying `d[k] += n` for every observation, in order. */
  function CountsOf<K(==,!new)>(obs: seq<(K, nat)>): map<K, nat> {
    if obs == [] then map[] else Bump(CountsOf(obs[..|obs| - 1]), obs[|obs| - 1].0, obs[|obs| - 1].1)
  }

  lemma CountsOfSnoc<K(!new)>(obs: seq<(K, nat)>, k: K, n: nat)
    ensures CountsOf(obs + [(k, n)]) == Bump(CountsOf(obs), k, n)
    ensures FirstSeen(KeysOf(obs + [(k, n)])) == if k in FirstSeen(KeysOf(obs)) then FirstSeen(KeysOf(obs)) else FirstSeen(KeysOf(obs)) + [k]
  {
    assert (obs + [(k, n)])[..|obs|] == obs;
    FirstSeenSnoc(KeysOf(obs), k);
    assert KeysOf(obs + [(k, n)]) == KeysOf(obs) + [k];
  }

  /** The folded counts hold a key exactly when it was observed, with the sum of its weights. */
  lemma {:induction false} CountsOfSums<K(!new)>(obs: seq<(K, nat)>)
    ensures forall k :: k in CountsOf(obs) <==> k in KeysOf(obs)
    ensures forall k :: (if k in CountsOf(obs) then CountsOf(obs)[k] else 0) == SumFor(obs, k)
  {
    if obs != [] {
      var front := obs[..|obs| - 1];
      CountsOfSums(front);
      assert obs == front + [obs[|obs| - 1]];
      assert KeysOf(obs) == KeysOf(front) + [obs[|obs| - 1].0];
    }
  }

  /**
   * `defaultdict(int)` restricted to the operations the source uses. The
   * ghost `history` lists every `d[k] += n` applied so far; `Valid` ties
   * the concrete keys and counts to the tally of that history.
   */
  class Counter<K(==,!new)> {
    var keys: seq<K>
    var counts: map<K, nat>
    ghost var history: seq<(K, nat)>

    ghost predicate Valid()
      reads this
    {
      keys == FirstSeen(KeysOf(history)) && counts == CountsOf(history)
    }

    /** The count of `k`, 0 if never counted (a read: unlike `d[k]` on a defaultdict, it inserts nothing). */
    function Get(k: K): nat
      reads this
    {
      if k in counts then counts[k] else 0
    }

    /** `d.items()`, in insertion order. */
    function Items(): (r: seq<(K, nat)>)
      reads this
      ensures |r| == |keys|
      ensures forall i :: 0 <= i < |keys| ==> r[i] == (keys[i], Get(keys[i]))
    {
      seq(|keys|, i reads this requires 0 <= i < |keys| => (keys[i], Get(keys[i])))
    }

    constructor ()
      ensures Valid() && keys == [] && counts == map[] && history == []
    {
      keys := [];
      counts := map[];
      history := [];
    }

    /** `d[k] += n`: a new key is appended to the insertion order. */
    method Add(k: K, n: nat)
      requires Valid()
      modifies this
      ensures Valid()
      ensures history == old(history) + [(k, n)]
      ensures keys == if k in old(keys) then old(keys) else old(keys) + [k]
      ensures counts == Bump(old(counts), k, n)
    {
      ghost var h := history + [(k, n)];
      CountsOfSnoc(history, k, n);
      var newKeys := if k in keys then keys else keys + [k];
      assert newKeys == FirstSeen(KeysOf(h));
      keys, counts, history := newKeys, Bump(counts, k, n), h;
    }
  }

  /** A valid counter's items are the tally of its history. */
  lemma ItemsAreTally<K(!new)>(c: Counter<K>)
    requires c.Valid()
    ensures c.Items() == Tally(c.history)
  {
    var items, tally := c.Items(), Tally(c.history);
    CountsOfSums(c.history);
    assert |items| == |tally|;
    forall i | 0 <= i < |items| ensures items[i] == tally[i] {
    }
  }
}
