/**
 * Group-by aggregation: `groupby(key)[val].sum()` and `value_counts()`.
 * A grouped table is an association list of (key, total) pairs with one
 * entry per distinct key; the order of its entries is not part of what
 * these functions promise (callers sort it).
 */
module Grouping {
  import opened Seqs

  /** The total of a (key, total) entry. */
  function Total<K>(p: (K, int)): int { p.1 }

  /** The keys that have an entry. */
  function KeysOf<K>(g: seq<(K, int)>): set<K>
  {
    set i | 0 <= i < |g| :: g[i].0
  }

  /** No key has two entries. */
  predicate DistinctKeys<K(==)>(g: seq<(K, int)>)
  {
    forall i, j :: 0 <= i < j < |g| ==> g[i].0 != g[j].0
  }

  /** The total recorded for `k` (its first entry), or 0 when `k` has none. */
  function Lookup<K(==)>(g: seq<(K, int)>, k: K): int
  {
    if g == [] then 0 else if g[0].0 == k then g[0].1 else Lookup(g[1..], k)
  }

  lemma {:induction false} KeysOfCons<K>(p: (K, int), g: seq<(K, int)>)
    ensures KeysOf([p] + g) == {p.0} + KeysOf(g)
  {
    var c := [p] + g;
    assert c[0] == p;
    forall i | 0 <= i < |g| ensures c[i + 1] == g[i] { }
    forall k | k in KeysOf(c) ensures k in {p.0} + KeysOf(g) {
      var i :| 0 <= i < |c| && c[i].0 == k;
      if i > 0 { assert g[i - 1].0 == k; }
    }
    forall k | k in {p.0} + KeysOf(g) ensures k in KeysOf(c) {
      if k != p.0 {
        var i :| 0 <= i < |g| && g[i].0 == k;
        assert c[i + 1].0 == k;
      }
    }
  }

  lemma {:induction false} DistinctCons<K>(p: (K, int), g: seq<(K, int)>)
    ensures DistinctKeys([p] + g) <==> p.0 !in KeysOf(g) && DistinctKeys(g)
  {
    var c := [p] + g;
    forall i | 0 <= i < |g| ensures c[i + 1] == g[i] { }
    if DistinctKeys(c) {
      forall i, j | 0 <= i < j < |g| ensures g[i].0 != g[j].0 {
        assert c[i + 1].0 != c[j + 1].0;
      }
      forall i | 0 <= i < |g| ensures g[i].0 != p.0 {
        assert c[0].0 != c[i + 1].0;
      }
    }
  }

  /** Adds `v` to the total of `k`, opening an entry for `k` when it has none. */
  function Accumulate<K(==,!new)>(g: seq<(K, int)>, k: K, v: int): (r: seq<(K, int)>)
    ensures KeysOf(r) == KeysOf(g) + {k}
    ensures forall k' :: Lookup(r, k') == Lookup(g, k') + (if k' == k then v else 0)
    ensures DistinctKeys(g) ==> DistinctKeys(r)
    ensures SumOf(r, Total) == SumOf(g, Total) + v
  {
    if g == [] then
      assert KeysOf([(k, v)]) == {k} by { KeysOfCons((k, v), []); }
      [(k, v)]
    else if g[0].0 == k then
      KeysOfCons(g[0], g[1..]);
      KeysOfCons((k, g[0].1 + v), g[1..]);
      DistinctCons(g[0], g[1..]);
      DistinctCons((k, g[0].1 + v), g[1..]);
      assert [g[0]] + g[1..] == g;
      [(k, g[0].1 + v)] + g[1..]
    else
      var rest := Accumulate(g[1..], k, v);
      KeysOfCons(g[0], g[1..]);
      KeysOfCons(g[0], rest);
      DistinctCons(g[0], g[1..]);
      DistinctCons(g[0], rest);
      assert [g[0]] + g[1..] == g;
      [g[0]] + rest
  }

  /**
   * `groupby(key)[val].sum()`: one entry per distinct key of the rows,
   * holding the sum of `val` over that key's rows.
   */
  function GroupSum<T, K(==,!new)>(rows: seq<T>, key: T -> K, val: T -> int): (g: seq<(K, int)>)
    ensures DistinctKeys(g)
    ensures KeysOf(g) == set i | 0 <= i < |rows| :: key(rows[i])
    ensures forall k :: Lookup(g, k) == SumWhere(rows, key, val, k)
    ensures SumOf(g, Total) == SumOf(rows, val)
  {
    if rows == [] then []
    else
      var g := Accumulate(GroupSum(rows[1..], key, val), key(rows[0]), val(rows[0]));
      assert (set i | 0 <= i < |rows| :: key(rows[i]))
          == (set i | 0 <= i < |rows[1..]| :: key(rows[1..][i])) + {key(rows[0])} by {
        forall i | 0 <= i < |rows|
          ensures key(rows[i]) in (set i | 0 <= i < |rows[1..]| :: key(rows[1..][i])) + {key(rows[0])}
        {
          if i > 0 { assert rows[1..][i - 1] == rows[i]; }
        }
      }
      g
  }

  /** With distinct keys, the total of an entry is what Lookup finds for its key. */
  lemma {:induction false} LookupEntry<K>(g: seq<(K, int)>, p: (K, int))
    requires DistinctKeys(g) && p in g
    ensures Lookup(g, p.0) == p.1
  {
    DistinctCons(g[0], g[1..]);
    assert [g[0]] + g[1..] == g;
    if g[0] != p {
      var i :| 0 <= i < |g[1..]| && g[1..][i] == p;
      assert p.0 in KeysOf(g[1..]);
      LookupEntry(g[1..], p);
    }
  }

  /** Every entry of a grouped sum holds the sum over exactly its key's rows. */
  lemma {:induction false} GroupSumEntries<T, K(!new)>(rows: seq<T>, key: T -> K, val: T -> int)
    ensures forall p :: p in GroupSum(rows, key, val) ==> p.1 == SumWhere(rows, key, val, p.0)
  {
    var g := GroupSum(rows, key, val);
    forall p | p in g ensures p.1 == SumWhere(rows, key, val, p.0) {
      LookupEntry(g, p);
    }
  }

  function Identity<K>(x: K): K { x }

  function One<K>(x: K): int { 1 }

  /** Counting a value's occurrences is summing 1 over its group. */
  lemma {:induction false} CountIsMultiplicity<K>(items: seq<K>, k: K)
    ensures SumWhere(items, Identity, One, k) == multiset(items)[k]
  {
    if items != [] {
      CountIsMultiplicity(items[1..], k);
      assert items == [items[0]] + items[1..];
      assert multiset(items) == multiset{items[0]} + multiset(items[1..]);
    }
  }

  /** There are |s| ones to add up. */
  lemma {:induction false} SumOfOnes<K>(s: seq<K>)
    ensures SumOf(s, One) == |s|
  {
    if s != [] { SumOfOnes(s[1..]); }
  }

  /**
   * `value_counts()`: one entry per distinct value, each holding how many
   * times the value occurs (so at least 1); the counts add up to the
   * number of values.
   */
  function CountBy<K(==,!new)>(items: seq<K>): (g: seq<(K, int)>)
    ensures DistinctKeys(g)
    ensures KeysOf(g) == set x | x in items
    ensures forall p :: p in g ==> p.1 == multiset(items)[p.0] && p.1 >= 1
    ensures SumOf(g, Total) == |items|
  {
    var g := GroupSum(items, Identity, One);
    GroupSumEntries(items, Identity, One);
    SumOfOnes(items);
    assert (set i | 0 <= i < |items| :: Identity(items[i])) == set x | x in items by {
      forall x | x in items ensures x in (set i | 0 <= i < |items| :: Identity(items[i])) {
        var i :| 0 <= i < |items| && items[i] == x;
      }
    }
    forall p | p in g ensures p.1 == multiset(items)[p.0] && p.1 >= 1 {
      CountIsMultiplicity(items, p.0);
      assert p.0 in KeysOf(g);
    }
    g
  }
}
