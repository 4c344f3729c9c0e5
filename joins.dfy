/**
 * A pandas inner equi-join, `left.merge(right, left_on=…, right_on=…)`:
 * every (left row, right row) pair whose keys are equal, in the order of
 * the left rows and, for one left row, in the order of the right rows.
 */
module Joins {
  import opened Common

  /** The pairs one left row forms: the right rows with its key, in right order. */
  function Pairs<L(!new), R(!new), K(==)>(l: L, right: seq<R>, lk: L -> K, rk: R -> K): (out: seq<(L, R)>)
    ensures forall p :: p in out <==> p.0 == l && p.1 in right && lk(l) == rk(p.1)
    ensures |out| <= |right|
  {
    if right == [] then []
    else
      var last := right[|right| - 1];
      var front := right[..|right| - 1];
      assert forall r :: r in right <==> r in front || r == last;
      Pairs(l, front, lk, rk) + if rk(last) == lk(l) then [(l, last)] else []
  }

  function Join<L(!new), R(!new), K(==)>(left: seq<L>, right: seq<R>, lk: L -> K, rk: R -> K): (out: seq<(L, R)>)
    ensures forall p :: p in out <==> p.0 in left && p.1 in right && lk(p.0) == rk(p.1)
  {
    if left == [] then []
    else
      var last := left[|left| - 1];
      var front := left[..|left| - 1];
      assert forall l :: l in left <==> l in front || l == last;
      Join(front, right, lk, rk) + Pairs(last, right, lk, rk)
  }

  /** Joining a concatenation joins each part: the join keeps the order of the left rows. */
  lemma {:induction false} JoinAppend<L(!new), R(!new), K>(a: seq<L>, b: seq<L>, right: seq<R>, lk: L -> K, rk: R -> K)
    ensures Join(a + b, right, lk, rk) == Join(a, right, lk, rk) + Join(b, right, lk, rk)
    decreases |b|
  {
    if b == [] {
      assert a + b == a;
    } else {
      var b' := b[..|b| - 1];
      assert (a + b)[..|a + b| - 1] == a + b';
      assert (a + b)[|a + b| - 1] == b[|b| - 1];
      JoinAppend(a, b', right, lk, rk);
      var last := b[|b| - 1];
      calc {
        Join(a + b, right, lk, rk);
        Join(a + b', right, lk, rk) + Pairs(last, right, lk, rk);
        (Join(a, right, lk, rk) + Join(b', right, lk, rk)) + Pairs(last, right, lk, rk);
        Join(a, right, lk, rk) + (Join(b', right, lk, rk) + Pairs(last, right, lk, rk));
        Join(a, right, lk, rk) + Join(b, right, lk, rk);
      }
    }
  }

  /** No two right rows share a key. */
  ghost predicate UniqueKeys<R, K>(right: seq<R>, rk: R -> K) {
    forall i, j :: 0 <= i < j < |right| ==> rk(right[i]) != rk(right[j])
  }

  /** The first right row with key `k`. */
  function Lookup<R, K(==)>(right: seq<R>, rk: R -> K, k: K): (o: Option<R>)
    ensures o.Some? ==> o.value in right && rk(o.value) == k
    ensures o.None? ==> forall i :: 0 <= i < |right| ==> rk(right[i]) != k
  {
    if right == [] then None
    else if rk(right[0]) == k then Some(right[0])
    else Lookup(right[1..], rk, k)
  }

  /** With unique keys, the row at any index with key `k` is the one `Lookup` finds. */
  lemma {:induction false} LookupUnique<R, K>(right: seq<R>, rk: R -> K, k: K, i: nat)
    requires UniqueKeys(right, rk) && i < |right| && rk(right[i]) == k
    ensures Lookup(right, rk, k) == Some(right[i])
  {
    if i > 0 {
      assert rk(right[0]) != k;
      assert UniqueKeys(right[1..], rk) by {
        forall a, b | 0 <= a < b < |right| - 1 ensures rk(right[1..][a]) != rk(right[1..][b]) {
          assert right[1..][a] == right[a + 1] && right[1..][b] == right[b + 1];
        }
      }
      LookupUnique(right[1..], rk, k, i - 1);
    }
  }

  /** With unique right keys, one left row pairs with exactly its lookup, or with nothing. */
  lemma {:induction false} PairsUnique<L(!new), R(!new), K>(l: L, right: seq<R>, lk: L -> K, rk: R -> K)
    requires UniqueKeys(right, rk)
    ensures Pairs(l, right, lk, rk) == match Lookup(right, rk, lk(l)) case None => [] case Some(r) => [(l, r)]
  {
    if right != [] {
      var k := lk(l);
      var n := |right| - 1;
      var front := right[..n];
      assert UniqueKeys(front, rk) by {
        forall a, b | 0 <= a < b < n ensures rk(front[a]) != rk(front[b]) {
          assert front[a] == right[a] && front[b] == right[b];
        }
      }
      PairsUnique(l, front, lk, rk);
      if rk(right[n]) == k {
        LookupUnique(right, rk, k, n);
        assert Lookup(front, rk, k).None?;
      } else {
        match Lookup(front, rk, k)
        case None =>
        case Some(r) =>
          var i :| 0 <= i < n && front[i] == r;
          LookupUnique(right, rk, k, i);
      }
    }
  }

  /** A join whose left side has at most one row is that row's lookup, under unique right keys. */
  lemma JoinAtMostOne<L(!new), R(!new), K>(left: seq<L>, right: seq<R>, lk: L -> K, rk: R -> K)
    requires |left| <= 1 && UniqueKeys(right, rk)
    ensures Join(left, right, lk, rk) ==
      if left == [] then [] else match Lookup(right, rk, lk(left[0])) case None => [] case Some(r) => [(left[0], r)]
  {
    if left != [] {
      assert left[..0] == [];
      PairsUnique(left[0], right, lk, rk);
    }
  }
}
