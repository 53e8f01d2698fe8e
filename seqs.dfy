/**
 * Column sums over the rows of a table: what `Series.sum()` computes on a
 * column, and the same sum restricted to the rows of one group.
 */
module Seqs {

  /** Sum of `val` over all rows. */
  function SumOf<T>(s: seq<T>, val: T -> int): int
  {
    if s == [] then 0 else val(s[0]) + SumOf(s[1..], val)
  }

  /** Sum of `val` over the rows whose `key` is `k`. */
  function SumWhere<T, K(==)>(s: seq<T>, key: T -> K, val: T -> int, k: K): int
  {
    if s == [] then 0
    else (if key(s[0]) == k then val(s[0]) else 0) + SumWhere(s[1..], key, val, k)
  }

  /** Sums distribute over concatenation of tables. */
  lemma {:induction false} SumOfAppend<T>(a: seq<T>, b: seq<T>, val: T -> int)
    ensures SumOf(a + b, val) == SumOf(a, val) + SumOf(b, val)
  {
    if a != [] {
      assert (a + b)[1..] == a[1..] + b;
      SumOfAppend(a[1..], b, val);
    } else {
      assert a + b == b;
    }
  }
}
