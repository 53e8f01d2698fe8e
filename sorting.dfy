/**
 * `sort_values(by=..., ascending=False)`: a descending sort by a score.
 * pandas' default sort is not stable, so nothing is promised about the
 * order of rows with equal scores: only the descending order and that the
 * result is a permutation of the input.
 */
module Sorting {
  import opened Seqs
  import opened Grouping

  /** Each row's score is at least that of every later row. */
  predicate SortedDesc<T>(s: seq<T>, score: T -> int)
  {
    forall i, j :: 0 <= i < j < |s| ==> score(s[i]) >= score(s[j])
  }

  /** A row scoring at least the head of a descending sequence can go in front of it. */
  lemma SortedCons<T>(a: T, t: seq<T>, score: T -> int)
    requires SortedDesc(t, score)
    requires t != [] ==> score(a) >= score(t[0])
    ensures SortedDesc([a] + t, score)
  {
  }

  /** Places `x` into a descending sequence, before the first row it scores at least. */
  function Insert<T>(x: T, s: seq<T>, score: T -> int): seq<T>
  {
    if s == [] then [x]
    else if score(x) >= score(s[0]) then [x] + s
    else [s[0]] + Insert(x, s[1..], score)
  }

  /** Inserting into a descending sequence keeps it descending. */
  lemma {:induction false} InsertSorted<T>(x: T, s: seq<T>, score: T -> int)
    requires SortedDesc(s, score)
    ensures |Insert(x, s, score)| == |s| + 1
    ensures Insert(x, s, score)[0] == x || (s != [] && Insert(x, s, score)[0] == s[0])
    ensures SortedDesc(Insert(x, s, score), score)
  {
    if s == [] {
    } else if score(x) >= score(s[0]) {
      SortedCons(x, s, score);
    } else {
      var rest := Insert(x, s[1..], score);
      assert SortedDesc(s[1..], score);
      InsertSorted(x, s[1..], score);
      assert score(s[0]) >= score(rest[0]);
      SortedCons(s[0], rest, score);
    }
  }

  /** Inserting adds exactly one row. */
  lemma {:induction false} InsertMultiset<T>(x: T, s: seq<T>, score: T -> int)
    ensures multiset(Insert(x, s, score)) == multiset(s) + multiset{x}
  {
    if s != [] && score(x) < score(s[0]) {
      InsertMultiset(x, s[1..], score);
      assert s == [s[0]] + s[1..];
      assert multiset([s[0]] + Insert(x, s[1..], score)) == multiset{s[0]} + multiset(Insert(x, s[1..], score));
    }
  }

  /** The rows of `s` rearranged so that scores never increase. */
  function SortDesc<T>(s: seq<T>, score: T -> int): (r: seq<T>)
    ensures SortedDesc(r, score)
    ensures multiset(r) == multiset(s)
  {
    if s == [] then []
    else
      var sorted := SortDesc(s[1..], score);
      InsertSorted(s[0], sorted, score);
      InsertMultiset(s[0], sorted, score);
      assert s == [s[0]] + s[1..];
      Insert(s[0], sorted, score)
  }

  /** Sorting keeps the length. */
  lemma {:induction false} SortDescLength<T>(s: seq<T>, score: T -> int)
    ensures |SortDesc(s, score)| == |s|
  {
    assert |multiset(SortDesc(s, score))| == |multiset(s)|;
  }

  /** A column sum is the same after inserting a row into a sorted table. */
  lemma {:induction false} InsertSum<T>(x: T, s: seq<T>, score: T -> int, val: T -> int)
    ensures SumOf(Insert(x, s, score), val) == val(x) + SumOf(s, val)
  {
    if s != [] && score(x) < score(s[0]) {
      InsertSum(x, s[1..], score, val);
    }
  }

  /** A column sum is the same after sorting. */
  lemma {:induction false} SortDescSum<T>(s: seq<T>, score: T -> int, val: T -> int)
    ensures SumOf(SortDesc(s, score), val) == SumOf(s, val)
  {
    if s != [] {
      SortDescSum(s[1..], score, val);
      InsertSum(s[0], SortDesc(s[1..], score), score, val);
    }
  }

  /** Sorting a grouped table keeps its keys. */
  lemma {:induction false} SortDescKeys<K>(g: seq<(K, int)>, score: ((K, int)) -> int)
    ensures KeysOf(SortDesc(g, score)) == KeysOf(g)
  {
    var r := SortDesc(g, score);
    forall k | k in KeysOf(r) ensures k in KeysOf(g) {
      var i :| 0 <= i < |r| && r[i].0 == k;
      assert r[i] in multiset(g);
    }
    forall k | k in KeysOf(g) ensures k in KeysOf(r) {
      var i :| 0 <= i < |g| && g[i].0 == k;
      assert g[i] in multiset(r);
    }
  }

  /** Inserting an entry whose key is new keeps the keys distinct. */
  lemma {:induction false} InsertDistinct<K>(x: (K, int), g: seq<(K, int)>, score: ((K, int)) -> int)
    requires DistinctKeys(g) && x.0 !in KeysOf(g)
    ensures DistinctKeys(Insert(x, g, score))
  {
    if g == [] {
      DistinctCons(x, []);
    } else if score(x) >= score(g[0]) {
      DistinctCons(x, g);
    } else {
      assert g == [g[0]] + g[1..];
      DistinctCons(g[0], g[1..]);
      KeysOfCons(g[0], g[1..]);
      var rest := Insert(x, g[1..], score);
      InsertDistinct(x, g[1..], score);
      InsertKeys(x, g[1..], score);
      DistinctCons(g[0], rest);
    }
  }

  /** Inserting an entry adds its key. */
  lemma {:induction false} InsertKeys<K>(x: (K, int), g: seq<(K, int)>, score: ((K, int)) -> int)
    ensures KeysOf(Insert(x, g, score)) == KeysOf(g) + {x.0}
  {
    var r := Insert(x, g, score);
    InsertMultiset(x, g, score);
    forall k | k in KeysOf(r) ensures k in KeysOf(g) + {x.0} {
      var i :| 0 <= i < |r| && r[i].0 == k;
      assert r[i] in multiset(g) + multiset{x};
    }
    forall k | k in KeysOf(g) + {x.0} ensures k in KeysOf(r) {
      if k == x.0 {
        assert x in multiset(r);
        var i :| 0 <= i < |r| && r[i] == x;
      } else {
        var i :| 0 <= i < |g| && g[i].0 == k;
        assert g[i] in multiset(r);
        var j :| 0 <= j < |r| && r[j] == g[i];
      }
    }
  }

  /** Sorting a grouped table keeps one entry per key. */
  lemma {:induction false} SortDescDistinct<K>(g: seq<(K, int)>, score: ((K, int)) -> int)
    requires DistinctKeys(g)
    ensures DistinctKeys(SortDesc(g, score))
  {
    if g != [] {
      assert g == [g[0]] + g[1..];
      DistinctCons(g[0], g[1..]);
      SortDescDistinct(g[1..], score);
      SortDescKeys(g[1..], score);
      InsertDistinct(g[0], SortDesc(g[1..], score), score);
    }
  }

  /**
   * A prefix of a descending sequence is descending, a sub-multiset of the
   * whole, and no row after it scores more than its last row.
   */
  lemma {:induction false} SortedPrefix<T>(s: seq<T>, k: nat, score: T -> int)
    requires SortedDesc(s, score) && k <= |s|
    ensures SortedDesc(s[..k], score)
    ensures multiset(s[..k]) <= multiset(s)
    ensures k > 0 ==> forall x :: x in multiset(s) - multiset(s[..k]) ==> score(x) <= score(s[k - 1])
  {
    var t, rest := s[..k], s[k..];
    assert s == t + rest;
    assert multiset(s) == multiset(t) + multiset(rest);
    assert multiset(s) - multiset(t) == multiset(rest);
    if k > 0 {
      forall x | x in multiset(rest) ensures score(x) <= score(s[k - 1]) {
        var j :| 0 <= j < |rest| && rest[j] == x;
        assert s[k + j] == x;
      }
    }
  }
}
