/**
 * Sorting by a comparison, as `DataFrame.sort_values` does.  The order is
 * given as `le(a, b)`: "a may come before b".  Insertion puts a row after
 * every row that may come before it, so rows that compare equal keep their
 * input order (a stable sort).
 */
module Sorting {

  ghost predicate Total<T(!new)>(le: (T, T) -> bool) {
    forall a, b :: le(a, b) || le(b, a)
  }

  ghost predicate Transitive<T(!new)>(le: (T, T) -> bool) {
    forall a, b, c :: le(a, b) && le(b, c) ==> le(a, c)
  }

  ghost predicate Sorted<T>(s: seq<T>, le: (T, T) -> bool) {
    forall i, j :: 0 <= i < j < |s| ==> le(s[i], s[j])
  }

  /** Puts `x` after the leading rows that may come before it. */
  function Insert<T>(x: T, s: seq<T>, le: (T, T) -> bool): (r: seq<T>)
    ensures multiset(r) == multiset(s) + multiset{x}
    ensures |r| == |s| + 1
  {
    if s == [] then [x]
    else if le(s[0], x) then
      assert s == [s[0]] + s[1..];
      [s[0]] + Insert(x, s[1..], le)
    else [x] + s
  }

  /** Inserts the rows one after the other, in input order. */
  function Sort<T>(s: seq<T>, le: (T, T) -> bool): (r: seq<T>)
    ensures multiset(r) == multiset(s)
    ensures |r| == |s|
  {
    if s == [] then []
    else
      assert s == s[..|s| - 1] + [s[|s| - 1]];
      Insert(s[|s| - 1], Sort(s[..|s| - 1], le), le)
  }

  lemma {:induction false} InsertSorted<T(!new)>(x: T, s: seq<T>, le: (T, T) -> bool)
    requires Total(le) && Transitive(le) && Sorted(s, le)
    ensures Sorted(Insert(x, s, le), le)
  {
    if s != [] && le(s[0], x) {
      var t := s[1..];
      assert Sorted(t, le) by {
        forall i, j | 0 <= i < j < |t| ensures le(t[i], t[j]) {
          assert t[i] == s[i + 1] && t[j] == s[j + 1];
        }
      }
      InsertSorted(x, t, le);
      var r := Insert(x, t, le);
      forall k | 0 <= k < |r| ensures le(s[0], r[k]) {
        assert r[k] in multiset(r);
        if r[k] == x {
        } else {
          assert r[k] in multiset(t);
          var m :| 0 <= m < |t| && t[m] == r[k];
          assert t[m] == s[m + 1];
        }
      }
      assert Insert(x, s, le) == [s[0]] + r;
    } else if s != [] {
      assert le(x, s[0]);
      forall k | 0 <= k < |s| ensures le(x, s[k]) {
        if k > 0 {
          assert le(s[0], s[k]);
        }
      }
    }
  }

  /** The result is in order when `le` is a total preorder. */
  lemma {:induction false} SortSorted<T(!new)>(s: seq<T>, le: (T, T) -> bool)
    requires Total(le) && Transitive(le)
    ensures Sorted(Sort(s, le), le)
  {
    if s != [] {
      SortSorted(s[..|s| - 1], le);
      InsertSorted(s[|s| - 1], Sort(s[..|s| - 1], le), le);
    }
  }
}
