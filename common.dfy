/** Small value types and sequence operations shared by every stage of the pipeline. */
module Common {

  /** A possibly missing cell: pandas' NaN / None. */
  datatype Option<+T> = None | Some(value: T) {
    predicate IsFailure() { None? }

    function PropagateFailure<U>(): Option<U>
      requires None?
    {
      None
    }

    function Extract(): T
      requires Some?
    {
      value
    }
  }

  /** The outcome of a stage that can raise. */
  datatype Result<+T, +E> = Ok(value: T) | Err(error: E)

  /** Boolean-mask selection of rows: keeps the rows satisfying `p`, in their original order. */
  function Filter<T>(s: seq<T>, p: T -> bool): (r: seq<T>)
    ensures |r| <= |s|
    ensures forall i :: 0 <= i < |r| ==> r[i] in s && p(r[i])
    ensures forall i :: 0 <= i < |s| && p(s[i]) ==> s[i] in r
  {
    if s == [] then [] else (if p(s[0]) then [s[0]] else []) + Filter(s[1..], p)
  }

  /** Applies `f` to every row. */
  function Map<T, U>(s: seq<T>, f: T -> U): (r: seq<U>)
    ensures |r| == |s|
    ensures forall i :: 0 <= i < |s| ==> r[i] == f(s[i])
  {
    if s == [] then [] else [f(s[0])] + Map(s[1..], f)
  }

  /** `a` is obtained from `b` by deleting elements (order is kept). */
  ghost predicate IsSubsequence<T>(a: seq<T>, b: seq<T>)
    decreases |b|
  {
    a == [] || (b != [] && if a[0] == b[0] then IsSubsequence(a[1..], b[1..]) else IsSubsequence(a, b[1..]))
  }

  lemma {:induction false} FilterAppend<T>(a: seq<T>, b: seq<T>, p: T -> bool)
    ensures Filter(a + b, p) == Filter(a, p) + Filter(b, p)
  {
    if a == [] {
      assert a + b == b;
    } else {
      var head := if p(a[0]) then [a[0]] else [];
      assert (a + b)[0] == a[0];
      assert (a + b)[1..] == a[1..] + b;
      FilterAppend(a[1..], b, p);
      calc {
        Filter(a + b, p);
        head + Filter(a[1..] + b, p);
        head + (Filter(a[1..], p) + Filter(b, p));
        (head + Filter(a[1..], p)) + Filter(b, p);
      }
    }
  }

  lemma {:induction false} MapAppend<T, U>(a: seq<T>, b: seq<T>, f: T -> U)
    ensures Map(a + b, f) == Map(a, f) + Map(b, f)
  {
    if a == [] {
      assert a + b == b;
    } else {
      assert (a + b)[0] == a[0];
      assert (a + b)[1..] == a[1..] + b;
      MapAppend(a[1..], b, f);
    }
  }

  lemma {:induction false} FilterIsSubsequence<T>(s: seq<T>, p: T -> bool)
    ensures IsSubsequence(Filter(s, p), s)
  {
    if s != [] {
      FilterIsSubsequence(s[1..], p);
      var r := Filter(s, p);
      if !p(s[0]) {
        assert r == Filter(s[1..], p);
        if r != [] {
          assert p(r[0]);
          assert r[0] != s[0];
        }
      }
    }
  }

  /** Appending one row to the table keeps a subsequence a subsequence, with or without that row. */
  lemma {:induction false} SubsequenceSnoc<T>(a: seq<T>, b: seq<T>, x: T)
    requires IsSubsequence(a, b)
    ensures IsSubsequence(a, b + [x]) && IsSubsequence(a + [x], b + [x])
    decreases |b|
  {
    if b == [] {
      assert a == [];
      assert [x][1..] == [];
    } else {
      assert (b + [x])[0] == b[0];
      assert (b + [x])[1..] == b[1..] + [x];
      if a == [] {
        SubsequenceSnoc(a, b[1..], x);
        assert a + [x] == [x] && [x][1..] == [];
      } else {
        assert (a + [x])[0] == a[0];
        assert (a + [x])[1..] == a[1..] + [x];
        if a[0] == b[0] {
          SubsequenceSnoc(a[1..], b[1..], x);
        } else {
          SubsequenceSnoc(a, b[1..], x);
        }
      }
    }
  }

  ghost predicate Injective<T(!new), U>(f: T -> U) {
    forall x, y :: f(x) == f(y) ==> x == y
  }

  /** An injective row map carries a subsequence to a subsequence. */
  lemma {:induction false} SubsequenceMap<T(!new), U>(a: seq<T>, b: seq<T>, f: T -> U)
    requires Injective(f) && IsSubsequence(a, b)
    ensures IsSubsequence(Map(a, f), Map(b, f))
    decreases |b|
  {
    if a != [] {
      assert Map(a, f)[1..] == Map(a[1..], f);
      assert Map(b, f)[1..] == Map(b[1..], f);
      if a[0] == b[0] {
        SubsequenceMap(a[1..], b[1..], f);
      } else {
        SubsequenceMap(a, b[1..], f);
      }
    }
  }

  /** Keeping every row that passes the mask leaves the table unchanged. */
  lemma {:induction false} FilterAll<T>(s: seq<T>, p: T -> bool)
    requires forall i :: 0 <= i < |s| ==> p(s[i])
    ensures Filter(s, p) == s
  {
    if s != [] {
      FilterAll(s[1..], p);
    }
  }
}
