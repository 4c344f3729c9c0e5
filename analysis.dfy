/**
 * `get_top_n_movies_per_country` and the ranking step of `perform_task_1`.
 *
 * The leaderboard keeps the countries (by country code) that have at least
 * `n` films, sorts the films by country name, country code, rating
 * (descending) and vote count (descending), takes the first `n` films of
 * every country code, and aggregates them per (country name, country code)
 * group, ascending by that pair.
 */
module Analysis {
  import opened Common
  import opened Tables
  import opened Sorting
  import opened StringOrder

  /** One row of the leaderboard. */
  datatype CountryStat = CountryStat(
    countryName: string, countryCode: string, avgRating: real, totalVotes: int, filmCount: nat)

  // ---------------------------------------------------------------- counting

  /** `value_counts()` of the country code column, at one code. */
  function CountCode(s: seq<Unified>, code: string): (k: nat)
    ensures k <= |s|
  {
    if s == [] then 0 else (if s[0].countryCode == code then 1 else 0) + CountCode(s[1..], code)
  }

  /** Some row has the code exactly when the count is positive. */
  lemma {:induction false} CountPositive(s: seq<Unified>, code: string)
    ensures CountCode(s, code) > 0 <==> exists i :: 0 <= i < |s| && s[i].countryCode == code
  {
    if s != [] {
      CountPositive(s[1..], code);
      assert forall i :: 0 <= i < |s| - 1 ==> s[1..][i] == s[i + 1];
    }
  }

  lemma {:induction false} CountAppend(a: seq<Unified>, b: seq<Unified>, code: string)
    ensures CountCode(a + b, code) == CountCode(a, code) + CountCode(b, code)
  {
    if a == [] {
      assert a + b == b;
    } else {
      assert (a + b)[0] == a[0];
      assert (a + b)[1..] == a[1..] + b;
      CountAppend(a[1..], b, code);
    }
  }

  /** A shorter prefix holds no more rows of a code. */
  lemma CountPrefix(s: seq<Unified>, i: nat, j: nat, code: string)
    requires i <= j <= |s|
    ensures CountCode(s[..i], code) <= CountCode(s[..j], code)
  {
    assert s[..j] == s[..i] + s[i..j];
    CountAppend(s[..i], s[i..j], code);
  }

  // ------------------------------------------------- countries with n films

  /** `movies_df[movies_df['region'].isin(countries_with_at_least_n_films)]`. */
  function Valid(s: seq<Unified>, n: nat): (r: seq<Unified>)
    ensures forall x :: x in r <==> x in s && CountCode(s, x.countryCode) >= n
  {
    Filter(s, (x: Unified) => CountCode(s, x.countryCode) >= n)
  }

  /** A filter that treats all rows of a code alike keeps all of them or none. */
  lemma {:induction false} FilterCount(t: seq<Unified>, p: Unified -> bool, code: string, keep: bool)
    requires forall x: Unified :: x.countryCode == code ==> p(x) == keep
    ensures CountCode(Filter(t, p), code) == if keep then CountCode(t, code) else 0
  {
    if t != [] {
      var head := if p(t[0]) then [t[0]] else [];
      FilterCount(t[1..], p, code, keep);
      CountAppend(head, Filter(t[1..], p), code);
    }
  }

  /** The valid rows hold every film of a qualifying country and none of the others. */
  lemma ValidCount(s: seq<Unified>, n: nat, code: string)
    ensures CountCode(Valid(s, n), code) == if CountCode(s, code) >= n then CountCode(s, code) else 0
  {
    FilterCount(s, (x: Unified) => CountCode(s, x.countryCode) >= n, code, CountCode(s, code) >= n);
  }

  // ------------------------------------------------------------------ sorting

  /**
   * The sort order `by=['countryName', 'region', 'averageRating', 'numVotes'],
   * ascending=[True, True, False, False]`: `x` may come before `y`.
   */
  predicate Before(x: Unified, y: Unified) {
    if x.countryName != y.countryName then StrLe(x.countryName, y.countryName)
    else if x.countryCode != y.countryCode then StrLe(x.countryCode, y.countryCode)
    else if x.averageRating != y.averageRating then x.averageRating > y.averageRating
    else x.numOfVotes >= y.numOfVotes
  }

  /** One level of a lexicographic order: the first strings compared, or equal. */
  lemma StrLevel(a: string, b: string, c: string)
    requires a != b ==> StrLe(a, b)
    requires b != c ==> StrLe(b, c)
    ensures a != c ==> StrLe(a, c)
    ensures a == c ==> a == b
  {
    if a != b && b != c {
      StrLeTransitive(a, b, c);
    }
    if a == c && a != b {
      StrLeAntisymmetric(a, b);
    }
  }

  lemma BeforeTransitive(x: Unified, y: Unified, z: Unified)
    requires Before(x, y) && Before(y, z)
    ensures Before(x, z)
  {
    StrLevel(x.countryName, y.countryName, z.countryName);
    if x.countryName == y.countryName && y.countryName == z.countryName {
      StrLevel(x.countryCode, y.countryCode, z.countryCode);
    }
  }

  /** `Before` is a total preorder, so sorting by it gives an ordered table. */
  lemma BeforeIsTotalPreorder()
    ensures Total(Before) && Transitive(Before)
  {
    forall x: Unified, y: Unified ensures Before(x, y) || Before(y, x) {
      StrLeTotal(x.countryName, y.countryName);
      StrLeTotal(x.countryCode, y.countryCode);
    }
    forall x: Unified, y: Unified, z: Unified | Before(x, y) && Before(y, z) ensures Before(x, z) {
      BeforeTransitive(x, y, z);
    }
  }

  lemma {:induction false} InsertCount(x: Unified, s: seq<Unified>, le: (Unified, Unified) -> bool, code: string)
    ensures CountCode(Insert(x, s, le), code) == CountCode(s, code) + (if x.countryCode == code then 1 else 0)
  {
    if s != [] && le(s[0], x) {
      InsertCount(x, s[1..], le, code);
      assert Insert(x, s, le)[1..] == Insert(x, s[1..], le);
    } else {
      assert Insert(x, s, le)[1..] == s;
    }
  }

  /** Sorting moves rows, so it keeps the number of rows of every code. */
  lemma {:induction false} SortCount(s: seq<Unified>, le: (Unified, Unified) -> bool, code: string)
    ensures CountCode(Sort(s, le), code) == CountCode(s, code)
  {
    if s != [] {
      var front := s[..|s| - 1];
      var last := s[|s| - 1];
      var sf := Sort(front, le);
      var one := if last.countryCode == code then 1 else 0;
      calc {
        CountCode(Sort(s, le), code);
        CountCode(Insert(last, sf, le), code);
        { InsertCount(last, sf, le, code); }
        CountCode(sf, code) + one;
        { SortCount(front, le, code); }
        CountCode(front, code) + one;
        CountCode(front, code) + CountCode([last], code);
        { CountAppend(front, [last], code); }
        CountCode(front + [last], code);
        { assert front + [last] == s; }
        CountCode(s, code);
      }
    }
  }

  // ------------------------------------------------------------ groupby.head

  /** `groupby('region').head(n)`: a row is kept while fewer than `n` earlier rows share its code. */
  function Heads(s: seq<Unified>, n: nat): seq<Unified> {
    if s == [] then []
    else
      var front := s[..|s| - 1];
      var last := s[|s| - 1];
      Heads(front, n) + if CountCode(front, last.countryCode) < n then [last] else []
  }

  /** The head keeps `min(n, count)` rows of every code. */
  lemma {:induction false} HeadsCount(s: seq<Unified>, n: nat, code: string)
    ensures CountCode(Heads(s, n), code) == if CountCode(s, code) < n then CountCode(s, code) else n
  {
    if s != [] {
      var front := s[..|s| - 1];
      var last := s[|s| - 1];
      var tail := if CountCode(front, last.countryCode) < n then [last] else [];
      calc {
        CountCode(Heads(s, n), code);
        CountCode(Heads(front, n) + tail, code);
        { CountAppend(Heads(front, n), tail, code); }
        CountCode(Heads(front, n), code) + CountCode(tail, code);
        { HeadsCount(front, n, code); }
        (if CountCode(front, code) < n then CountCode(front, code) else n) + CountCode(tail, code);
      }
      calc {
        CountCode(s, code);
        { assert s == front + [last]; }
        CountCode(front + [last], code);
        { CountAppend(front, [last], code); }
        CountCode(front, code) + CountCode([last], code);
      }
    }
  }

  /** A row with fewer than `n` earlier rows of its code is kept. */
  lemma {:induction false} HeadsKeeps(s: seq<Unified>, n: nat, k: nat)
    requires k < |s| && CountCode(s[..k], s[k].countryCode) < n
    ensures s[k] in Heads(s, n)
  {
    var front := s[..|s| - 1];
    if k < |s| - 1 {
      assert front[k] == s[k] && front[..k] == s[..k];
      HeadsKeeps(front, n, k);
    }
  }

  /** Every kept row is a row of the input with fewer than `n` earlier rows of its code. */
  lemma {:induction false} HeadsOnly(s: seq<Unified>, n: nat, x: Unified)
    requires x in Heads(s, n)
    ensures exists k :: 0 <= k < |s| && s[k] == x && CountCode(s[..k], x.countryCode) < n
  {
    var front := s[..|s| - 1];
    var last := s[|s| - 1];
    if x in Heads(front, n) {
      HeadsOnly(front, n, x);
      var k :| 0 <= k < |front| && front[k] == x && CountCode(front[..k], x.countryCode) < n;
      assert s[k] == x && s[..k] == front[..k];
    } else {
      assert s[..|s| - 1] == front;
    }
  }

  /** Among rows of one code, every kept row comes before every dropped row. */
  lemma HeadsBeforeDropped(s: seq<Unified>, n: nat, x: Unified, y: Unified)
    requires x in Heads(s, n) && y in s && y !in Heads(s, n) && y.countryCode == x.countryCode
    ensures exists i, j :: 0 <= i < j < |s| && s[i] == x && s[j] == y
  {
    HeadsOnly(s, n, x);
    var i :| 0 <= i < |s| && s[i] == x && CountCode(s[..i], x.countryCode) < n;
    var j :| 0 <= j < |s| && s[j] == y;
    if j <= i {
      CountPrefix(s, j, i, x.countryCode);
      HeadsKeeps(s, n, j);
    }
  }

  /** The head keeps the rows it keeps in their table order. */
  lemma {:induction false} HeadsKeepOrder(s: seq<Unified>, n: nat)
    ensures IsSubsequence(Heads(s, n), s)
  {
    if s != [] {
      var front := s[..|s| - 1];
      var last := s[|s| - 1];
      var h := Heads(front, n);
      HeadsKeepOrder(front, n);
      assert s == front + [last];
      SubsequenceSnoc(h, front, last);
      if CountCode(front, last.countryCode) < n {
        assert Heads(s, n) == h + [last];
      } else {
        assert Heads(s, n) == h + [];
        assert h + [] == h;
      }
    }
  }

  /** The head of an ordered table is ordered. */
  lemma {:induction false} HeadsSorted(s: seq<Unified>, n: nat, le: (Unified, Unified) -> bool)
    requires Sorted(s, le)
    ensures Sorted(Heads(s, n), le)
  {
    if s != [] {
      var front := s[..|s| - 1];
      var last := s[|s| - 1];
      assert Sorted(front, le);
      HeadsSorted(front, n, le);
      var h := Heads(front, n);
      if CountCode(front, last.countryCode) < n {
        forall i | 0 <= i < |h| ensures le(h[i], last) {
          HeadsOnly(front, n, h[i]);
        }
      }
    }
  }

  // --------------------------------------------------------------- the films

  /** The films that enter the leaderboard: the first `n` per code of the sorted valid rows. */
  function Chosen(movies: seq<Unified>, n: nat): seq<Unified> {
    Heads(Sort(Valid(movies, n), Before), n)
  }

  /** Every film of the leaderboard is a film of the input. */
  lemma ChosenFromMovies(movies: seq<Unified>, n: nat, x: Unified)
    requires x in Chosen(movies, n)
    ensures x in movies && CountCode(movies, x.countryCode) >= n
  {
    var sorted := Sort(Valid(movies, n), Before);
    HeadsOnly(sorted, n, x);
    assert x in multiset(sorted);
  }

  /** Exactly `n` films are chosen for a country with at least `n` films, and none for the others. */
  lemma ChosenCount(movies: seq<Unified>, n: nat, code: string)
    ensures CountCode(Chosen(movies, n), code) == if CountCode(movies, code) >= n then n else 0
  {
    var valid := Valid(movies, n);
    ValidCount(movies, n, code);
    SortCount(valid, Before, code);
    HeadsCount(Sort(valid, Before), n, code);
  }

  /** Each country code is shown with one country name. */
  ghost predicate ConsistentNames(movies: seq<Unified>) {
    forall i, j :: 0 <= i < |movies| && 0 <= j < |movies| && movies[i].countryCode == movies[j].countryCode ==>
      movies[i].countryName == movies[j].countryName
  }

  /** `x` rates at least as well as `y`: a higher rating, or an equal rating and at least as many votes. */
  predicate AtLeastAsGood(x: Unified, y: Unified) {
    x.averageRating > y.averageRating || (x.averageRating == y.averageRating && x.numOfVotes >= y.numOfVotes)
  }

  /**
   * The chosen films of a country are its best: no film of the same country
   * that was left out rates better than a chosen one.
   */
  lemma ChosenAreBest(movies: seq<Unified>, n: nat, x: Unified, y: Unified)
    requires ConsistentNames(movies)
    requires x in Chosen(movies, n) && y in movies && y.countryCode == x.countryCode && y !in Chosen(movies, n)
    ensures AtLeastAsGood(x, y)
  {
    var valid := Valid(movies, n);
    var sorted := Sort(valid, Before);
    ChosenFromMovies(movies, n, x);
    assert y in valid;
    assert y in multiset(sorted);
    HeadsBeforeDropped(sorted, n, x, y);
    var i, j :| 0 <= i < j < |sorted| && sorted[i] == x && sorted[j] == y;
    BeforeIsTotalPreorder();
    SortSorted(valid, Before);
    var a :| 0 <= a < |movies| && movies[a] == x;
    var b :| 0 <= b < |movies| && movies[b] == y;
  }

  // --------------------------------------------------------------- grouping

  /** The `groupby(['countryName', 'region'])` key of a row. */
  function GroupKey(x: Unified): (string, string) {
    (x.countryName, x.countryCode)
  }

  /** The order `groupby` sorts its keys in. */
  predicate KeyLe(a: (string, string), b: (string, string)) {
    if a.0 != b.0 then StrLe(a.0, b.0) else StrLe(a.1, b.1)
  }

  predicate KeyLt(a: (string, string), b: (string, string)) {
    KeyLe(a, b) && a != b
  }

  lemma BeforeKeyLe(x: Unified, y: Unified)
    requires Before(x, y)
    ensures KeyLe(GroupKey(x), GroupKey(y))
  {
    StrLeTotal(x.countryCode, y.countryCode);
  }

  /** The distinct group keys, in order of first occurrence. */
  function DistinctKeys(s: seq<Unified>): (r: seq<(string, string)>)
    ensures forall k :: k in r <==> exists i :: 0 <= i < |s| && GroupKey(s[i]) == k
    ensures forall i, j :: 0 <= i < j < |r| ==> r[i] != r[j]
  {
    if s == [] then []
    else
      var front := s[..|s| - 1];
      var keys := DistinctKeys(front);
      var k := GroupKey(s[|s| - 1]);
      assert forall i :: 0 <= i < |front| ==> front[i] == s[i];
      keys + if k in keys then [] else [k]
  }

  /** The rows of one group, in table order. */
  function GroupRows(s: seq<Unified>, k: (string, string)): (r: seq<Unified>)
    ensures forall x :: x in r ==> x in s && GroupKey(x) == k
    ensures forall x :: x in s && GroupKey(x) == k ==> x in r
    ensures |r| > 0 <==> exists i :: 0 <= i < |s| && GroupKey(s[i]) == k
  {
    if s == [] then []
    else
      assert forall i :: 0 <= i < |s| - 1 ==> s[1..][i] == s[i + 1];
      (if GroupKey(s[0]) == k then [s[0]] else []) + GroupRows(s[1..], k)
  }

  function SumRatings(rows: seq<Unified>): real {
    if rows == [] then 0.0 else rows[0].averageRating + SumRatings(rows[1..])
  }

  function SumVotes(rows: seq<Unified>): int {
    if rows == [] then 0 else rows[0].numOfVotes + SumVotes(rows[1..])
  }

  /** `agg({'averageRating': 'mean', 'numVotes': 'sum', 'title': 'count'})` of one non-empty group. */
  function GroupStat(rows: seq<Unified>, k: (string, string)): (st: CountryStat)
    requires |rows| > 0
    ensures st.countryName == k.0 && st.countryCode == k.1
    ensures st.filmCount == |rows| && st.totalVotes == SumVotes(rows)
    ensures st.avgRating == SumRatings(rows) / (|rows| as real)
  {
    CountryStat(k.0, k.1, SumRatings(rows) / (|rows| as real), SumVotes(rows), |rows|)
  }

  /** The average times the film count gives back the total rating: it is the mean. */
  lemma GroupStatMean(rows: seq<Unified>, k: (string, string))
    requires |rows| > 0
    ensures GroupStat(rows, k).avgRating * (GroupStat(rows, k).filmCount as real) == SumRatings(rows)
  {
  }

  lemma {:induction false} SumRatingsBounds(rows: seq<Unified>, lo: real, hi: real)
    requires forall i :: 0 <= i < |rows| ==> lo <= rows[i].averageRating <= hi
    ensures lo * (|rows| as real) <= SumRatings(rows) <= hi * (|rows| as real)
  {
    if rows != [] {
      assert forall i :: 0 <= i < |rows| - 1 ==> rows[1..][i] == rows[i + 1];
      SumRatingsBounds(rows[1..], lo, hi);
      assert (|rows| as real) == (|rows[1..]| as real) + 1.0;
    }
  }

  /** The average of a group lies between bounds that hold for every rating in it. */
  lemma GroupStatWithinRatings(rows: seq<Unified>, k: (string, string), lo: real, hi: real)
    requires |rows| > 0
    requires forall i :: 0 <= i < |rows| ==> lo <= rows[i].averageRating <= hi
    ensures lo <= GroupStat(rows, k).avgRating <= hi
  {
    var avg := GroupStat(rows, k).avgRating;
    var n := |rows| as real;
    GroupStatMean(rows, k);
    SumRatingsBounds(rows, lo, hi);
    assert avg * n == SumRatings(rows);
    assert (avg - lo) * n >= 0.0;
    assert (hi - avg) * n >= 0.0;
  }

  /** The statistics of the groups `keys`, in that order. */
  function StatsOf(s: seq<Unified>, keys: seq<(string, string)>): (r: seq<CountryStat>)
    requires forall j :: 0 <= j < |keys| ==> |GroupRows(s, keys[j])| > 0
    ensures |r| == |keys|
  {
    if keys == [] then []
    else
      assert forall j :: 0 <= j < |keys| - 1 ==> keys[1..][j] == keys[j + 1];
      [GroupStat(GroupRows(s, keys[0]), keys[0])] + StatsOf(s, keys[1..])
  }

  /** Row `j` of the statistics is the statistic of group `keys[j]`. */
  lemma {:induction false} StatsOfAt(s: seq<Unified>, keys: seq<(string, string)>, j: nat)
    requires forall j :: 0 <= j < |keys| ==> |GroupRows(s, keys[j])| > 0
    requires j < |keys|
    ensures StatsOf(s, keys)[j] == GroupStat(GroupRows(s, keys[j]), keys[j])
  {
    if j > 0 {
      assert forall i :: 0 <= i < |keys| - 1 ==> keys[1..][i] == keys[i + 1];
      StatsOfAt(s, keys[1..], j - 1);
    }
  }

  /** Keys first met in an ordered table are strictly ascending. */
  lemma {:induction false} DistinctKeysAscending(s: seq<Unified>)
    requires Sorted(s, Before)
    ensures forall i, j :: 0 <= i < j < |DistinctKeys(s)| ==> KeyLt(DistinctKeys(s)[i], DistinctKeys(s)[j])
  {
    if s != [] {
      var front := s[..|s| - 1];
      var last := s[|s| - 1];
      assert Sorted(front, Before);
      DistinctKeysAscending(front);
      var keys := DistinctKeys(front);
      forall i | 0 <= i < |keys| ensures KeyLe(keys[i], GroupKey(last)) {
        assert keys[i] in keys;
        var a :| 0 <= a < |front| && GroupKey(front[a]) == keys[i];
        BeforeKeyLe(front[a], last);
      }
    }
  }

  // ------------------------------------------------------------ leaderboard

  /** `groupby(['countryName', 'region']).agg(...).reset_index()`: one row per group, in key order of `s`. */
  function Aggregate(s: seq<Unified>): (r: seq<CountryStat>)
    ensures |r| == |DistinctKeys(s)|
    ensures forall i :: 0 <= i < |r| ==>
      var k := DistinctKeys(s)[i];
      var rows := GroupRows(s, k);
      && r[i].countryName == k.0 && r[i].countryCode == k.1
      && |rows| > 0 && r[i].filmCount == |rows| && r[i].totalVotes == SumVotes(rows)
      && r[i].avgRating == SumRatings(rows) / (|rows| as real)
  {
    var keys := DistinctKeys(s);
    assert forall j :: 0 <= j < |keys| ==> keys[j] in keys;
    var r := StatsOf(s, keys);
    assert forall i :: 0 <= i < |r| ==> r[i] == GroupStat(GroupRows(s, keys[i]), keys[i]) by {
      forall i | 0 <= i < |r| ensures r[i] == GroupStat(GroupRows(s, keys[i]), keys[i]) {
        StatsOfAt(s, keys, i);
      }
    }
    r
  }

  /** A code is in the aggregate exactly when some row of `s` has it. */
  lemma AggregateCodes(s: seq<Unified>, code: string)
    ensures (exists i :: 0 <= i < |Aggregate(s)| && Aggregate(s)[i].countryCode == code) <==> CountCode(s, code) > 0
  {
    var r := Aggregate(s);
    var keys := DistinctKeys(s);
    CountPositive(s, code);
    if exists i :: 0 <= i < |r| && r[i].countryCode == code {
      var i :| 0 <= i < |r| && r[i].countryCode == code;
      assert keys[i] in keys;
      var a :| 0 <= a < |s| && GroupKey(s[a]) == keys[i];
      assert s[a].countryCode == code;
    }
    if CountCode(s, code) > 0 {
      var a :| 0 <= a < |s| && s[a].countryCode == code;
      assert GroupKey(s[a]) in keys;
      var i :| 0 <= i < |keys| && keys[i] == GroupKey(s[a]);
      assert r[i].countryCode == code;
    }
  }

  /** A group never holds more rows than its country code has. */
  lemma {:induction false} GroupRowsAtMost(s: seq<Unified>, k: (string, string))
    ensures |GroupRows(s, k)| <= CountCode(s, k.1)
  {
    if s != [] {
      GroupRowsAtMost(s[1..], k);
    }
  }

  /**
   * `get_top_n_movies_per_country(movies_df, n)`. Every country shown counts
   * between one and `n` of its top films.
   */
  function TopNPerCountry(movies: seq<Unified>, n: nat): (r: seq<CountryStat>)
    ensures forall i :: 0 <= i < |r| ==> 1 <= r[i].filmCount <= n
  {
    var chosen := Chosen(movies, n);
    var r := Aggregate(chosen);
    assert forall i :: 0 <= i < |r| ==> 1 <= r[i].filmCount <= n by {
      forall i | 0 <= i < |r| ensures 1 <= r[i].filmCount <= n {
        var key := DistinctKeys(chosen)[i];
        GroupRowsAtMost(chosen, key);
        ChosenCount(movies, n, key.1);
      }
    }
    r
  }

  /** A country appears in the leaderboard exactly when it has at least `n` films (and `n > 0`). */
  lemma TopNCountries(movies: seq<Unified>, n: nat, code: string)
    ensures (exists i :: 0 <= i < |TopNPerCountry(movies, n)| && TopNPerCountry(movies, n)[i].countryCode == code)
      <==> n > 0 && CountCode(movies, code) >= n
  {
    var top := Chosen(movies, n);
    ChosenCount(movies, n, code);
    assert CountCode(top, code) > 0 <==> n > 0 && CountCode(movies, code) >= n;
    AggregateCodes(top, code);
    assert TopNPerCountry(movies, n) == Aggregate(top);
  }

  /** With `n == 0`, or no country with `n` films, the leaderboard is empty rather than an error. */
  lemma TopNEmpty(movies: seq<Unified>, n: nat)
    ensures TopNPerCountry(movies, n) == [] <==>
      n == 0 || forall i :: 0 <= i < |movies| ==> CountCode(movies, movies[i].countryCode) < n
  {
    var r := TopNPerCountry(movies, n);
    if r != [] {
      TopNCountries(movies, n, r[0].countryCode);
    }
    if n > 0 && exists i :: 0 <= i < |movies| && CountCode(movies, movies[i].countryCode) >= n {
      var i :| 0 <= i < |movies| && CountCode(movies, movies[i].countryCode) >= n;
      TopNCountries(movies, n, movies[i].countryCode);
    }
  }

  /** With one name per code, a group is all the rows of its code. */
  lemma {:induction false} GroupRowsOfCode(s: seq<Unified>, k: (string, string))
    requires forall x :: x in s && x.countryCode == k.1 ==> x.countryName == k.0
    ensures |GroupRows(s, k)| == CountCode(s, k.1)
  {
    if s != [] {
      assert forall x :: x in s[1..] ==> x in s;
      GroupRowsOfCode(s[1..], k);
    }
  }

  /** With one name per code, every group of the aggregate counts all the rows of its code. */
  lemma AggregateCounts(s: seq<Unified>)
    requires ConsistentNames(s)
    ensures forall i :: 0 <= i < |Aggregate(s)| ==> Aggregate(s)[i].filmCount == CountCode(s, Aggregate(s)[i].countryCode)
  {
    var r := Aggregate(s);
    var keys := DistinctKeys(s);
    forall i | 0 <= i < |r| ensures r[i].filmCount == CountCode(s, r[i].countryCode) {
      var k := keys[i];
      assert k in keys;
      var a :| 0 <= a < |s| && GroupKey(s[a]) == k;
      forall x | x in s && x.countryCode == k.1 ensures x.countryName == k.0 {
        var p :| 0 <= p < |s| && s[p] == x;
      }
      GroupRowsOfCode(s, k);
    }
  }

  /** The chosen films keep one name per code when the input does. */
  lemma ChosenConsistent(movies: seq<Unified>, n: nat)
    requires ConsistentNames(movies)
    ensures ConsistentNames(Chosen(movies, n))
  {
    var top := Chosen(movies, n);
    forall i, j | 0 <= i < |top| && 0 <= j < |top| && top[i].countryCode == top[j].countryCode
      ensures top[i].countryName == top[j].countryName
    {
      ChosenFromMovies(movies, n, top[i]);
      ChosenFromMovies(movies, n, top[j]);
      var p :| 0 <= p < |movies| && movies[p] == top[i];
      var q :| 0 <= q < |movies| && movies[q] == top[j];
    }
  }

  /** With one name per code, every leaderboard row counts exactly `n` films. */
  lemma TopNFilmCount(movies: seq<Unified>, n: nat)
    requires ConsistentNames(movies)
    ensures forall i :: 0 <= i < |TopNPerCountry(movies, n)| ==> TopNPerCountry(movies, n)[i].filmCount == n
  {
    var top := Chosen(movies, n);
    var r := Aggregate(top);
    ChosenConsistent(movies, n);
    AggregateCounts(top);
    forall i | 0 <= i < |r| ensures r[i].filmCount == n {
      ChosenCount(movies, n, r[i].countryCode);
    }
  }

  /** The rows come out ascending by (country name, country code), one per group. */
  lemma TopNAscending(movies: seq<Unified>, n: nat)
    ensures forall i, j :: 0 <= i < j < |TopNPerCountry(movies, n)| ==>
      KeyLt((TopNPerCountry(movies, n)[i].countryName, TopNPerCountry(movies, n)[i].countryCode),
            (TopNPerCountry(movies, n)[j].countryName, TopNPerCountry(movies, n)[j].countryCode))
  {
    var valid := Valid(movies, n);
    BeforeIsTotalPreorder();
    SortSorted(valid, Before);
    HeadsSorted(Sort(valid, Before), n, Before);
    DistinctKeysAscending(Chosen(movies, n));
  }

  /**
   * Equal ratings are broken by votes: of two films of one country with the
   * same rating, `n = 1` keeps the one with more votes, whatever the input order.
   */
  lemma VotesBreakTies(a: Unified, b: Unified)
    requires a.countryName == b.countryName && a.countryCode == b.countryCode
    requires a.averageRating == b.averageRating && a.numOfVotes > b.numOfVotes
    ensures Chosen([b, a], 1) == [a]
    ensures TopNPerCountry([b, a], 1) == [CountryStat(a.countryName, a.countryCode, a.averageRating, a.numOfVotes, 1)]
  {
    PairValid(b, a);
    PairSorted(a, b);
    PairHead(a, b);
    SingleAggregate(a);
  }

  lemma PairValid(x: Unified, y: Unified)
    requires x.countryCode == y.countryCode
    ensures Valid([x, y], 1) == [x, y]
  {
    var s := [x, y];
    assert CountCode(s, x.countryCode) == 2;
    assert s[1..][1..] == [];
    assert Filter(s[1..], (r: Unified) => CountCode(s, r.countryCode) >= 1) == [y];
  }

  lemma PairSorted(a: Unified, b: Unified)
    requires a.countryName == b.countryName && a.countryCode == b.countryCode
    requires a.averageRating == b.averageRating && a.numOfVotes > b.numOfVotes
    ensures Sort([b, a], Before) == [a, b]
  {
    assert [b, a][..1] == [b];
    assert [b][..0] == [];
    assert Sort([b], Before) == [b];
    assert !Before(b, a);
  }

  lemma PairHead(a: Unified, b: Unified)
    requires a.countryCode == b.countryCode
    ensures Heads([a, b], 1) == [a]
  {
    assert [a, b][..1] == [a];
    assert [a][..0] == [];
    assert Heads([a], 1) == [a];
    assert CountCode([a], b.countryCode) == 1;
  }

  lemma SingleAggregate(a: Unified)
    ensures Aggregate([a]) == [CountryStat(a.countryName, a.countryCode, a.averageRating, a.numOfVotes, 1)]
  {
    assert [a][..0] == [] && [a][1..] == [];
    assert DistinctKeys([a]) == [GroupKey(a)];
    assert GroupRows([a], GroupKey(a)) == [a];
    assert SumRatings([a]) == a.averageRating;
    assert SumVotes([a]) == a.numOfVotes;
  }

  // --------------------------------------------------------------- task 1

  /** `sort_values(by='avg_rating', ascending=False)`: `a` may come before `b`. */
  predicate HigherAverage(a: CountryStat, b: CountryStat) {
    a.avgRating >= b.avgRating
  }

  /** The leaderboard ordered by average rating, best first. */
  function Ranking(stats: seq<CountryStat>): seq<CountryStat> {
    Sort(stats, HigherAverage)
  }

  /** `head(10)` of the ranking: the rows `perform_task_1` shows for one `n`. */
  function TopTen(stats: seq<CountryStat>): (r: seq<CountryStat>)
    ensures |r| == if |stats| < 10 then |stats| else 10
  {
    var ranked := Ranking(stats);
    ranked[..if |ranked| < 10 then |ranked| else 10]
  }

  /**
   * The rows shown are rows of the leaderboard, best average first, and no
   * row left out has a higher average than a row shown.
   */
  lemma TopTenBest(stats: seq<CountryStat>)
    ensures multiset(TopTen(stats)) <= multiset(stats)
    ensures forall i, j :: 0 <= i < j < |TopTen(stats)| ==> TopTen(stats)[i].avgRating >= TopTen(stats)[j].avgRating
    ensures forall x, y :: x in TopTen(stats) && y in stats && y !in TopTen(stats) ==> y.avgRating <= x.avgRating
  {
    var ranked := Ranking(stats);
    assert Total(HigherAverage);
    assert Transitive(HigherAverage);
    SortSorted(stats, HigherAverage);
    PrefixOfRanking(ranked, stats, if |ranked| < 10 then |ranked| else 10);
  }

  /** A prefix of a descending permutation of `stats` holds rows that beat every row it leaves out. */
  lemma PrefixOfRanking(ranked: seq<CountryStat>, stats: seq<CountryStat>, k: nat)
    requires multiset(ranked) == multiset(stats) && Sorted(ranked, HigherAverage) && k <= |ranked|
    ensures multiset(ranked[..k]) <= multiset(stats)
    ensures forall i, j :: 0 <= i < j < k ==> ranked[..k][i].avgRating >= ranked[..k][j].avgRating
    ensures forall x, y :: x in ranked[..k] && y in stats && y !in ranked[..k] ==> y.avgRating <= x.avgRating
  {
    var shown := ranked[..k];
    assert ranked == shown + ranked[k..];
    assert multiset(ranked) == multiset(shown) + multiset(ranked[k..]);
    forall x, y | x in shown && y in stats && y !in shown ensures y.avgRating <= x.avgRating {
      assert y in multiset(ranked);
      var j :| 0 <= j < |ranked| && ranked[j] == y;
      var i :| 0 <= i < k && shown[i] == x;
      assert ranked[i] == x;
    }
  }

  /** What `perform_task_1` shows: the top ten of the leaderboard for each `n` in turn. */
  function Task1(movies: seq<Unified>, numbers: seq<nat> := [10, 20, 50, 100, 200]): (r: seq<seq<CountryStat>>)
    ensures |r| == |numbers|
    ensures forall i :: 0 <= i < |numbers| ==> r[i] == TopTen(TopNPerCountry(movies, numbers[i]))
  {
    Map(numbers, (n: nat) => TopTen(TopNPerCountry(movies, n)))
  }
}
