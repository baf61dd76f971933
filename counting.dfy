/** Counting records by a key, as `collections.defaultdict(lambda: 0)` with
    `d[key(x)] += 1` does: the records selected by one key value, the keys in
    the order a dictionary first sees them, and the fact that the counts of
    distinct keys covering all records add up to the number of records. */
module Counting {

  predicate Distinct<K(==)>(ks: seq<K>) {
    forall i, j :: 0 <= i < j < |ks| ==> ks[i] != ks[j]
  }

  /** The records whose key is `k`, in their order. */
  function Select<T(==), K(==)>(xs: seq<T>, key: T -> K, k: K): (r: seq<T>)
    ensures |r| <= |xs|
  {
    if xs == [] then []
    else Select(xs[..|xs| - 1], key, k) + (if key(xs[|xs| - 1]) == k then [xs[|xs| - 1]] else [])
  }

  lemma SelectSnoc<T, K>(xs: seq<T>, x: T, key: T -> K, k: K)
    ensures Select(xs + [x], key, k) == Select(xs, key, k) + (if key(x) == k then [x] else [])
  {
    assert (xs + [x])[..|xs|] == xs;
  }

  /** Selecting by `k` keeps exactly the records whose key is `k`. */
  lemma {:induction false} SelectMembers<T, K>(xs: seq<T>, key: T -> K, k: K)
    ensures forall y :: y in Select(xs, key, k) <==> y in xs && key(y) == k
  {
    if xs != [] {
      var init, x := xs[..|xs| - 1], xs[|xs| - 1];
      SelectMembers(init, key, k);
      assert xs == init + [x];
    }
  }

  /** The keys in the order the records first show them. */
  function FirstSeen<T(==), K(==)>(xs: seq<T>, key: T -> K): seq<K> {
    if xs == [] then []
    else
      var ks := FirstSeen(xs[..|xs| - 1], key);
      if key(xs[|xs| - 1]) in ks then ks else ks + [key(xs[|xs| - 1])]
  }

  /** Each key of a record appears once among the first-seen keys, and no other. */
  lemma {:induction false} FirstSeenFacts<T, K>(xs: seq<T>, key: T -> K)
    ensures Distinct(FirstSeen(xs, key))
    ensures forall k :: k in FirstSeen(xs, key) <==> |Select(xs, key, k)| > 0
  {
    if xs != [] {
      var init, x := xs[..|xs| - 1], xs[|xs| - 1];
      FirstSeenFacts(init, key);
      forall k ensures k in FirstSeen(xs, key) <==> |Select(xs, key, k)| > 0 {
        assert Select(xs, key, k) == Select(init, key, k) + (if key(x) == k then [x] else []);
      }
    }
  }

  lemma {:induction false} FirstSeenKeys<T, K>(xs: seq<T>, key: T -> K)
    ensures forall i :: 0 <= i < |xs| ==> key(xs[i]) in FirstSeen(xs, key)
  {
    FirstSeenFacts(xs, key);
    forall i | 0 <= i < |xs| ensures key(xs[i]) in FirstSeen(xs, key) {
      SelectMembers(xs, key, key(xs[i]));
      assert xs[i] in Select(xs, key, key(xs[i]));
    }
  }

  /** The counts of the keys `ks`, added up. */
  function SumSel<T(==), K(==)>(ks: seq<K>, xs: seq<T>, key: T -> K): nat {
    if ks == [] then 0 else SumSel(ks[..|ks| - 1], xs, key) + |Select(xs, key, ks[|ks| - 1])|
  }

  lemma {:induction false} SumSelEmpty<T, K>(ks: seq<K>, key: T -> K)
    ensures SumSel(ks, [], key) == 0
  {
    if ks != [] {
      SumSelEmpty(ks[..|ks| - 1], key);
    }
  }

  lemma {:induction false} SumSelSnoc<T, K>(ks: seq<K>, xs: seq<T>, x: T, key: T -> K)
    requires Distinct(ks)
    ensures SumSel(ks, xs + [x], key) == SumSel(ks, xs, key) + if key(x) in ks then 1 else 0
  {
    if ks != [] {
      var init, k := ks[..|ks| - 1], ks[|ks| - 1];
      assert Distinct(init);
      SumSelSnoc(init, xs, x, key);
      SelectSnoc(xs, x, key, k);
      assert key(x) in ks <==> key(x) in init || key(x) == k by {
        assert ks == init + [k];
      }
      assert !(key(x) in init && key(x) == k);
    }
  }

  /** Distinct keys that cover every record count every record exactly once. */
  lemma {:induction false} SelectSum<T, K>(ks: seq<K>, xs: seq<T>, key: T -> K)
    requires Distinct(ks)
    requires forall i :: 0 <= i < |xs| ==> key(xs[i]) in ks
    ensures SumSel(ks, xs, key) == |xs|
  {
    if xs == [] {
      SumSelEmpty(ks, key);
    } else {
      var init, x := xs[..|xs| - 1], xs[|xs| - 1];
      assert forall i :: 0 <= i < |init| ==> init[i] == xs[i];
      SelectSum(ks, init, key);
      SumSelSnoc(ks, init, x, key);
      assert xs == init + [x];
    }
  }
}
