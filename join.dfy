/**
 * `pd.merge(left, right, on=key)` with the default `how='inner'`: every
 * pair of a left row and a right row whose keys are equal. The model lists
 * the pairs by left row and, for one left row, by its right matches; no
 * lemma promises that order, since pandas versions differ in it.
 * Duplicate keys multiply, as in a many-to-many join.
 */
module Join {

  /** `l` paired with each row of `right` whose key is `k`. */
  function Matches<L, R, K(==)>(l: L, k: K, right: seq<R>, rk: R -> K): (m: seq<(L, R)>)
    ensures forall i :: 0 <= i < |m| ==> m[i].0 == l && rk(m[i].1) == k
  {
    if right == [] then []
    else if rk(right[0]) == k then [(l, right[0])] + Matches(l, k, right[1..], rk)
    else Matches(l, k, right[1..], rk)
  }

  /** The inner join of two tables on the keys `lk` and `rk`. */
  function InnerJoin<L, R, K(==)>(left: seq<L>, right: seq<R>, lk: L -> K, rk: R -> K): (j: seq<(L, R)>)
    ensures forall i :: 0 <= i < |j| ==> lk(j[i].0) == rk(j[i].1)
  {
    if left == [] then []
    else Matches(left[0], lk(left[0]), right, rk) + InnerJoin(left[1..], right, lk, rk)
  }

  lemma {:induction false} MatchesMultiplicity<L, R, K>(a: L, k: K, right: seq<R>, rk: R -> K, l: L, r: R)
    ensures multiset(Matches(a, k, right, rk))[(l, r)]
         == if a == l && rk(r) == k then multiset(right)[r] else 0
  {
    if right != [] {
      MatchesMultiplicity(a, k, right[1..], rk, l, r);
      assert right == [right[0]] + right[1..];
      assert multiset(right) == multiset{right[0]} + multiset(right[1..]);
    }
  }

  /**
   * A pair (l, r) occurs in the join as many times as l occurs on the left
   * times r occurs on the right when their keys are equal, and never
   * otherwise.
   */
  lemma {:induction false} JoinMultiplicity<L, R, K>(left: seq<L>, right: seq<R>, lk: L -> K, rk: R -> K, l: L, r: R)
    ensures multiset(InnerJoin(left, right, lk, rk))[(l, r)]
         == if lk(l) == rk(r) then multiset(left)[l] * multiset(right)[r] else 0
  {
    if left != [] {
      var m := Matches(left[0], lk(left[0]), right, rk);
      var rest := InnerJoin(left[1..], right, lk, rk);
      assert InnerJoin(left, right, lk, rk) == m + rest;
      assert multiset(m + rest) == multiset(m) + multiset(rest);
      JoinMultiplicity(left[1..], right, lk, rk, l, r);
      MatchesMultiplicity(left[0], lk(left[0]), right, rk, l, r);
      assert left == [left[0]] + left[1..];
      assert multiset(left) == multiset{left[0]} + multiset(left[1..]);
      var nl := multiset(left[1..])[l];
      var nr := multiset(right)[r];
      if lk(l) == rk(r) {
        if left[0] == l {
          assert multiset(left)[l] == nl + 1;
          MulDistributes(nl, nr);
        } else {
          assert multiset(left)[l] == nl;
        }
      }
    }
  }

  lemma MulDistributes(a: nat, b: nat)
    ensures (a + 1) * b == a * b + b
  {
  }

  /** The join holds exactly the pairs of rows, one from each side, whose keys are equal. */
  lemma {:induction false} JoinMembership<L, R, K>(left: seq<L>, right: seq<R>, lk: L -> K, rk: R -> K, l: L, r: R)
    ensures (l, r) in InnerJoin(left, right, lk, rk) <==> l in left && r in right && lk(l) == rk(r)
  {
    JoinMultiplicity(left, right, lk, rk, l, r);
    var j := InnerJoin(left, right, lk, rk);
    assert (l, r) in j <==> multiset(j)[(l, r)] > 0;
    assert l in left <==> multiset(left)[l] > 0;
    assert r in right <==> multiset(right)[r] > 0;
    var nl := multiset(left)[l];
    var nr := multiset(right)[r];
    assert nl > 0 && nr > 0 ==> nl * nr > 0;
    assert nl == 0 || nr == 0 ==> nl * nr == 0;
  }
}
