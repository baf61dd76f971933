/** Python's `sorted`: of a dictionary's keys (distinct, under a total order) and,
    stably, of a list under a key that may tie. */
module Sorting {

  ghost predicate TotalOrder<T(!new)>(le: (T, T) -> bool) {
    && (forall a, b :: le(a, b) || le(b, a))
    && (forall a, b :: le(a, b) && le(b, a) ==> a == b)
    && (forall a, b, c :: le(a, b) && le(b, c) ==> le(a, c))
  }

  ghost predicate TotalPreorder<T(!new)>(le: (T, T) -> bool) {
    && (forall a, b :: le(a, b) || le(b, a))
    && (forall a, b, c :: le(a, b) && le(b, c) ==> le(a, c))
  }

  predicate SortedBy<T>(s: seq<T>, le: (T, T) -> bool) {
    forall i, j :: 0 <= i < j < |s| ==> le(s[i], s[j])
  }

  predicate IsLeast<T>(m: T, s: set<T>, le: (T, T) -> bool) {
    m in s && forall y :: y in s ==> le(m, y)
  }

  lemma {:induction false} LeastExists<T(!new)>(s: set<T>, le: (T, T) -> bool)
    requires TotalOrder(le)
    requires s != {}
    ensures exists m :: IsLeast(m, s, le)
    decreases |s|
  {
    var x :| x in s;
    if s == {x} {
      assert IsLeast(x, s, le);
    } else {
      LeastExists(s - {x}, le);
      var m :| IsLeast(m, s - {x}, le);
      assert forall y :: y in s ==> y == x || y in s - {x};
      if le(x, m) {
        assert IsLeast(x, s, le);
      } else {
        assert IsLeast(m, s, le);
      }
    }
  }

  /** `sorted(keys)` for a set of distinct keys: the least key first, then
      the rest sorted. */
  function SortSet<T(!new)>(s: set<T>, le: (T, T) -> bool): (r: seq<T>)
    requires TotalOrder(le)
    ensures |r| == |s|
    decreases |s|
  {
    if s == {} then []
    else
      LeastExists(s, le);
      var m :| IsLeast(m, s, le);
      [m] + SortSet(s - {m}, le)
  }

  /** The sorted keys are in ascending order, each key exactly once. */
  lemma {:induction false} SortSetFacts<T(!new)>(s: set<T>, le: (T, T) -> bool)
    requires TotalOrder(le)
    ensures forall x :: x in s <==> x in SortSet(s, le)
    ensures SortedBy(SortSet(s, le), le)
    ensures forall i, j :: 0 <= i < j < |SortSet(s, le)| ==> SortSet(s, le)[i] != SortSet(s, le)[j]
    decreases |s|
  {
    if s != {} {
      var r := SortSet(s, le);
      var m := r[0];
      assert IsLeast(m, s, le) && r[1..] == SortSet(s - {m}, le);
      SortSetFacts(s - {m}, le);
      assert r == [m] + r[1..];
      forall i, j | 0 <= i < j < |r| ensures le(r[i], r[j]) && r[i] != r[j] {
        if i == 0 {
          assert r[j] in s - {m} by {
            assert r[j] == r[1..][j - 1];
          }
        } else {
          assert r[i] == r[1..][i - 1] && r[j] == r[1..][j - 1];
        }
      }
    }
  }

  /** Inserts `x` before the first element it is not after: `x` stays ahead of
      every equivalent element, which is what makes the sort stable. */
  function Insert<T>(x: T, s: seq<T>, le: (T, T) -> bool): seq<T> {
    if s == [] then [x]
    else if le(x, s[0]) then [x] + s
    else [s[0]] + Insert(x, s[1..], le)
  }

  /** `sorted(s, key=...)`: an insertion sort, stable like Python's. */
  function StableSort<T>(s: seq<T>, le: (T, T) -> bool): seq<T> {
    if s == [] then [] else Insert(s[0], StableSort(s[1..], le), le)
  }

  lemma {:induction false} InsertMultiset<T>(x: T, s: seq<T>, le: (T, T) -> bool)
    ensures multiset(Insert(x, s, le)) == multiset(s) + multiset{x}
  {
    if s != [] && !le(x, s[0]) {
      InsertMultiset(x, s[1..], le);
      assert s == [s[0]] + s[1..];
    }
  }

  /** A lower bound of `x` and of all of `s` bounds all of `Insert(x, s)`. */
  lemma {:induction false} InsertBound<T(!new)>(b: T, x: T, s: seq<T>, le: (T, T) -> bool)
    requires le(b, x)
    requires forall k :: 0 <= k < |s| ==> le(b, s[k])
    ensures forall k :: 0 <= k < |Insert(x, s, le)| ==> le(b, Insert(x, s, le)[k])
  {
    if s != [] && !le(x, s[0]) {
      InsertBound(b, x, s[1..], le);
    }
  }

  lemma {:induction false} InsertSorted<T(!new)>(x: T, s: seq<T>, le: (T, T) -> bool)
    requires TotalPreorder(le)
    requires SortedBy(s, le)
    ensures SortedBy(Insert(x, s, le), le)
    ensures multiset(Insert(x, s, le)) == multiset(s) + multiset{x}
  {
    InsertMultiset(x, s, le);
    if s != [] && !le(x, s[0]) {
      InsertSorted(x, s[1..], le);
      InsertBound(s[0], x, s[1..], le);
    } else if s != [] {
      assert forall k :: 0 <= k < |s| ==> le(x, s[k]) by {
        forall k | 0 <= k < |s| ensures le(x, s[k]) {
          if k > 0 { assert le(s[0], s[k]); }
        }
      }
    }
  }

  lemma {:induction false} StableSortSorted<T(!new)>(s: seq<T>, le: (T, T) -> bool)
    requires TotalPreorder(le)
    ensures SortedBy(StableSort(s, le), le)
    ensures multiset(StableSort(s, le)) == multiset(s)
  {
    if s != [] {
      StableSortSorted(s[1..], le);
      InsertSorted(s[0], StableSort(s[1..], le), le);
      assert s == [s[0]] + s[1..];
    }
  }

  /** The elements of `s` equivalent to `x` under `le`, in their order. */
  function Ties<T>(s: seq<T>, x: T, le: (T, T) -> bool): seq<T> {
    if s == [] then []
    else (if le(s[0], x) && le(x, s[0]) then [s[0]] else []) + Ties(s[1..], x, le)
  }

  lemma {:induction false} InsertTies<T(!new)>(y: T, s: seq<T>, x: T, le: (T, T) -> bool)
    requires TotalPreorder(le)
    ensures Ties(Insert(y, s, le), x, le)
         == (if le(y, x) && le(x, y) then [y] else []) + Ties(s, x, le)
  {
    if s != [] && !le(y, s[0]) {
      InsertTies(y, s[1..], x, le);
      var t := Insert(y, s[1..], le);
      assert Insert(y, s, le) == [s[0]] + t;
      assert ([s[0]] + t)[1..] == t;
      if le(y, x) && le(x, y) {
        // s[0] is strictly before y, so it cannot tie with x
        assert !(le(s[0], x) && le(x, s[0]));
      }
    } else if s != [] {
      assert ([y] + s)[1..] == s;
    }
  }

  /** Stability: elements that tie keep their input order. */
  lemma {:induction false} StableSortStable<T(!new)>(s: seq<T>, x: T, le: (T, T) -> bool)
    requires TotalPreorder(le)
    ensures Ties(StableSort(s, le), x, le) == Ties(s, x, le)
  {
    if s != [] {
      StableSortStable(s[1..], x, le);
      InsertTies(s[0], StableSort(s[1..], le), x, le);
    }
  }

  /** Python's `<=` on integers. */
  function NatLe(a: nat, b: nat): bool { a <= b }

  lemma NatLeTotal()
    ensures TotalOrder(NatLe)
  {
  }
}
