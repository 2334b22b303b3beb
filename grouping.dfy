/** What SQL `GROUP BY key ORDER BY key` and `COUNT(*)` compute over a
    sequence of rows: the distinct keys in order, and per key the number of
    rows (and of rows meeting a condition) with that key. */
module Grouping {
  import opened Common

  predicate Distinct<K(==, !new)>(ks: seq<K>) {
    forall i, j | 0 <= i < j < |ks| :: ks[i] != ks[j]
  }

  /** Adjacent keys are in strictly increasing order. */
  predicate SortedBy<K>(ks: seq<K>, less: (K, K) -> bool) {
    forall i | 0 <= i < |ks| - 1 :: less(ks[i], ks[i + 1])
  }

  /** `less` orders any two distinct keys one way or the other. */
  ghost predicate Total<K(!new)>(less: (K, K) -> bool) {
    forall a: K, b: K :: a == b || less(a, b) || less(b, a)
  }

  /** Rows meeting `p`. */
  function CountWhere<T>(xs: seq<T>, p: T -> bool): (n: nat)
    ensures n <= |xs|
  {
    if xs == [] then 0 else (if p(xs[0]) then 1 else 0) + CountWhere(xs[1..], p)
  }

  /** Rows whose key is `k`. */
  function CountKey<T, K(==, !new)>(xs: seq<T>, key: T -> K, k: K): (n: nat)
    ensures n <= |xs|
    ensures n > 0 <==> exists i | 0 <= i < |xs| :: key(xs[i]) == k
  {
    if xs == [] then 0
    else
      var n := (if key(xs[0]) == k then 1 else 0) + CountKey(xs[1..], key, k);
      assert forall i | 1 <= i < |xs| :: xs[i] == xs[1..][i - 1];
      n
  }

  /** Rows whose key is `k` and that meet `p`. */
  function CountKeyWhere<T, K(==, !new)>(xs: seq<T>, key: T -> K, k: K, p: T -> bool): (n: nat)
    ensures n <= CountKey(xs, key, k)
  {
    if xs == [] then 0
    else (if key(xs[0]) == k && p(xs[0]) then 1 else 0) + CountKeyWhere(xs[1..], key, k, p)
  }

  /** How often `k` occurs in `ks`. */
  function Occurrences<K(==, !new)>(ks: seq<K>, k: K): nat {
    if ks == [] then 0 else (if ks[0] == k then 1 else 0) + Occurrences(ks[1..], k)
  }

  lemma {:induction false} OccurrencesOfDistinct<K(!new)>(ks: seq<K>, k: K)
    requires Distinct(ks)
    ensures Occurrences(ks, k) == if k in ks then 1 else 0
  {
    if ks != [] {
      OccurrencesOfDistinct(ks[1..], k);
      if ks[0] == k {
        assert k !in ks[1..] by {
          forall j | 0 <= j < |ks| - 1 ensures ks[1..][j] != k {
            assert ks[0] != ks[j + 1];
          }
        }
      } else {
        assert k in ks <==> k in ks[1..];
      }
    }
  }

  /** Sum of the per-key counts over `ks`. */
  function SumCounts<T, K(==, !new)>(ks: seq<K>, xs: seq<T>, key: T -> K): nat {
    if ks == [] then 0 else CountKey(xs, key, ks[0]) + SumCounts(ks[1..], xs, key)
  }

  function SumCountsWhere<T, K(==, !new)>(ks: seq<K>, xs: seq<T>, key: T -> K, p: T -> bool): nat {
    if ks == [] then 0 else CountKeyWhere(xs, key, ks[0], p) + SumCountsWhere(ks[1..], xs, key, p)
  }

  /** Peeling the first row off every per-key count. */
  lemma {:induction false} SumCountsCons<T, K(!new)>(ks: seq<K>, xs: seq<T>, key: T -> K)
    requires xs != []
    ensures SumCounts(ks, xs, key) == Occurrences(ks, key(xs[0])) + SumCounts(ks, xs[1..], key)
  {
    if ks != [] {
      SumCountsCons(ks[1..], xs, key);
    }
  }

  lemma {:induction false} SumCountsWhereCons<T, K(!new)>(ks: seq<K>, xs: seq<T>, key: T -> K, p: T -> bool)
    requires xs != []
    ensures SumCountsWhere(ks, xs, key, p)
         == (if p(xs[0]) then Occurrences(ks, key(xs[0])) else 0) + SumCountsWhere(ks, xs[1..], key, p)
  {
    if ks != [] {
      SumCountsWhereCons(ks[1..], xs, key, p);
    }
  }

  /** Groups over distinct keys that cover every row partition the rows:
      the per-key counts add up to the number of rows, and the per-key
      counts of rows meeting `p` to the number of such rows. */
  lemma {:induction false} GroupsPartition<T, K(!new)>(ks: seq<K>, xs: seq<T>, key: T -> K, p: T -> bool)
    requires Distinct(ks)
    requires forall i | 0 <= i < |xs| :: key(xs[i]) in ks
    ensures SumCounts(ks, xs, key) == |xs|
    ensures SumCountsWhere(ks, xs, key, p) == CountWhere(xs, p)
  {
    if xs != [] {
      assert forall i | 0 <= i < |xs| - 1 :: xs[1..][i] == xs[i + 1];
      GroupsPartition(ks, xs[1..], key, p);
      SumCountsCons(ks, xs, key);
      SumCountsWhereCons(ks, xs, key, p);
      OccurrencesOfDistinct(ks, key(xs[0]));
    } else {
      SumCountsEmpty(ks, xs, key, p);
    }
  }

  lemma {:induction false} SumCountsEmpty<T, K(!new)>(ks: seq<K>, xs: seq<T>, key: T -> K, p: T -> bool)
    requires xs == []
    ensures SumCounts(ks, xs, key) == 0 && SumCountsWhere(ks, xs, key, p) == 0
  {
    if ks != [] {
      SumCountsEmpty(ks[1..], xs, key, p);
    }
  }

  /** Inserting a key into an ordered key list, unless it is already
      there. */
  function InsertKey<K(==, !new)>(k: K, ks: seq<K>, less: (K, K) -> bool): (r: seq<K>)
    ensures forall x :: x in r <==> x == k || x in ks
    ensures Distinct(ks) ==> Distinct(r)
  {
    if k in ks then ks else InsertNew(k, ks, less)
  }

  function InsertNew<K(==, !new)>(k: K, ks: seq<K>, less: (K, K) -> bool): (r: seq<K>)
    requires k !in ks
    ensures |r| == |ks| + 1
    ensures forall x :: x in r <==> x == k || x in ks
    ensures Distinct(ks) ==> Distinct(r)
    ensures r[0] == k || (ks != [] && r[0] == ks[0])
  {
    if ks == [] || less(k, ks[0]) then [k] + ks
    else
      DistinctTail(ks);
      [ks[0]] + InsertNew(k, ks[1..], less)
  }

  lemma DistinctTail<K(!new)>(ks: seq<K>)
    requires ks != []
    ensures Distinct(ks) ==> ks[0] !in ks[1..] && Distinct(ks[1..])
  {
    if Distinct(ks) {
      forall j | 0 <= j < |ks| - 1 ensures ks[1..][j] != ks[0] {
        assert ks[0] != ks[j + 1];
      }
    }
  }

  lemma {:induction false} InsertNewSorted<K(!new)>(k: K, ks: seq<K>, less: (K, K) -> bool)
    requires k !in ks && SortedBy(ks, less) && Total(less)
    ensures SortedBy(InsertNew(k, ks, less), less)
  {
    if ks != [] && !less(k, ks[0]) {
      assert ks[0] != k;
      InsertNewSorted(k, ks[1..], less);
      var tail := InsertNew(k, ks[1..], less);
      assert less(ks[0], tail[0]) by {
        if tail[0] != k {
          assert tail[0] == ks[1];
        }
      }
    }
  }

  /** The distinct keys of the rows, ordered by `less` when it is total. */
  function DistinctKeys<T, K(==, !new)>(xs: seq<T>, key: T -> K, less: (K, K) -> bool): (ks: seq<K>)
    ensures Distinct(ks)
    ensures forall k :: k in ks <==> exists i | 0 <= i < |xs| :: key(xs[i]) == k
  {
    if xs == [] then []
    else
      var ks := InsertKey(key(xs[0]), DistinctKeys(xs[1..], key, less), less);
      assert forall i | 1 <= i < |xs| :: xs[i] == xs[1..][i - 1];
      ks
  }

  lemma {:induction false} DistinctKeysSorted<T, K(!new)>(xs: seq<T>, key: T -> K, less: (K, K) -> bool)
    requires Total(less)
    ensures SortedBy(DistinctKeys(xs, key, less), less)
  {
    if xs != [] {
      var rest := DistinctKeys(xs[1..], key, less);
      DistinctKeysSorted(xs[1..], key, less);
      if key(xs[0]) !in rest {
        InsertNewSorted(key(xs[0]), rest, less);
      }
    }
  }

  /** A key of `ks` with the largest count (the first such one). */
  function MostCommonKey<T, K(==, !new)>(ks: seq<K>, xs: seq<T>, key: T -> K): (best: K)
    requires ks != []
    ensures best in ks
    ensures forall k | k in ks :: CountKey(xs, key, k) <= CountKey(xs, key, best)
  {
    if |ks| == 1 then ks[0]
    else
      var rest := MostCommonKey(ks[1..], xs, key);
      if CountKey(xs, key, ks[0]) >= CountKey(xs, key, rest) then ks[0] else rest
  }
}
