/**
 * `clean`: keeps the movie rows of the merged frame, drops the join
 * scaffolding and renames the rest, removes duplicates of a nine-column key
 * keeping the first, and derives `gdp_per_population`.
 */
module Clean {
  import opened Common
  import opened Tables

  // ---------------------------------------------------------------------------
  // The stages, as functions

  function IsMovie(m: MergedRow): bool { m.titleType == "movie" }

  /**
   * The drop of `tconst`, `titleType`, `startYear`, `alpha-2`, `alpha-3`,
   * `Country Code_x`, `Country Code_y`, `Year_y`, `nconst`, and the rename of
   * the remaining columns (`Year_x`, the population year, becomes `year`).
   */
  function Rename(m: MergedRow): Renamed {
    Renamed(m.titleId, m.region, m.popYear, m.primaryTitle, m.name, m.averageRating, m.numVotes,
            m.primaryName, m.directors, m.population, m.gdp)
  }

  /** The subset `drop_duplicates` compares: every column except `title` and `country_name`. */
  type DedupKey = (string, string, int, real, int, string, string, real, real)

  function Key(r: Renamed): DedupKey {
    (r.countryCode, r.titleId, r.year, r.averageRating, r.numOfVotes, r.directorId, r.directorName, r.population, r.gdp)
  }

  /** The keys of a frame. */
  function Keys(s: seq<Renamed>): (ks: set<DedupKey>)
    ensures forall k :: k in ks <==> exists i :: 0 <= i < |s| && Key(s[i]) == k
  {
    if s == [] then {}
    else
      assert forall i :: 0 <= i < |s| - 1 ==> s[..|s| - 1][i] == s[i];
      Keys(s[..|s| - 1]) + {Key(s[|s| - 1])}
  }

  /** `drop_duplicates(subset=…, keep='first')`: a row is kept when no earlier row has its key. */
  function DropDuplicates(s: seq<Renamed>): seq<Renamed> {
    if s == [] then []
    else
      var front := s[..|s| - 1];
      var last := s[|s| - 1];
      DropDuplicates(front) + if Key(last) in Keys(front) then [] else [last]
  }

  /** `gdp / population`; None where pandas gives inf or NaN (a zero population). */
  function PerPopulation(gdp: real, population: real): Option<real> {
    if population == 0.0 then None else Some(gdp / population)
  }

  function Derive(r: Renamed): Unified {
    Unified(r.titleId, r.countryCode, r.year, r.title, r.countryName, r.averageRating, r.numOfVotes,
            r.directorName, r.directorId, r.population, r.gdp, PerPopulation(r.gdp, r.population))
  }

  /** What `clean` returns. */
  function CleanSpec(merged: seq<MergedRow>): seq<Unified> {
    Map(DropDuplicates(Map(Filter(merged, IsMovie), Rename)), Derive)
  }

  // ---------------------------------------------------------------------------
  // The operation, step by step

  method CleanFrame(merged: seq<MergedRow>) returns (cleaned: seq<Unified>)
    ensures cleaned == CleanSpec(merged)
  {
    var renamed := MovieRows(merged);
    var unique := DropDuplicateRows(renamed);
    cleaned := DeriveRows(unique);
  }

  /** The `titleType == 'movie'` mask, then the column drop and rename. */
  method MovieRows(merged: seq<MergedRow>) returns (renamed: seq<Renamed>)
    ensures renamed == Map(Filter(merged, IsMovie), Rename)
  {
    renamed := [];
    var i := |merged|;
    while i > 0
      invariant 0 <= i <= |merged|
      invariant renamed == Map(Filter(merged[i..], IsMovie), Rename)
    {
      i := i - 1;
      assert merged[i..] == [merged[i]] + merged[i + 1..];
      if IsMovie(merged[i]) {
        renamed := [Rename(merged[i])] + renamed;
      }
    }
  }

  /** `drop_duplicates`, remembering the keys seen so far. */
  method DropDuplicateRows(s: seq<Renamed>) returns (unique: seq<Renamed>)
    ensures unique == DropDuplicates(s)
  {
    unique := [];
    var seen: set<DedupKey> := {};
    var i := 0;
    while i < |s|
      invariant 0 <= i <= |s|
      invariant unique == DropDuplicates(s[..i]) && seen == Keys(s[..i])
    {
      assert s[..i + 1][..i] == s[..i];
      if Key(s[i]) !in seen {
        unique := unique + [s[i]];
      }
      seen := seen + {Key(s[i])};
      i := i + 1;
    }
    assert s[..i] == s;
  }

  /** The `gdp_per_population` column. */
  method DeriveRows(s: seq<Renamed>) returns (rows: seq<Unified>)
    ensures rows == Map(s, Derive)
  {
    rows := [];
    var i := 0;
    while i < |s|
      invariant 0 <= i <= |s|
      invariant |rows| == i && forall k :: 0 <= k < i ==> rows[k] == Derive(s[k])
    {
      rows := rows + [Derive(s[i])];
      i := i + 1;
    }
  }

  // ---------------------------------------------------------------------------
  // Properties

  /** Deduplication keeps exactly the keys of its input. */
  lemma {:induction false} DropDuplicatesKeys(s: seq<Renamed>)
    ensures Keys(DropDuplicates(s)) == Keys(s)
  {
    if s != [] {
      var front := s[..|s| - 1];
      var last := s[|s| - 1];
      var tail := if Key(last) in Keys(front) then [] else [last];
      calc {
        Keys(DropDuplicates(s));
        Keys(DropDuplicates(front) + tail);
        { KeysAppend(DropDuplicates(front), tail); }
        Keys(DropDuplicates(front)) + Keys(tail);
        { DropDuplicatesKeys(front); }
        Keys(front) + Keys(tail);
        Keys(front) + {Key(last)};
        Keys(s);
      }
    }
  }

  lemma KeysAppend(a: seq<Renamed>, b: seq<Renamed>)
    ensures Keys(a + b) == Keys(a) + Keys(b)
  {
    forall k | k in Keys(a + b) ensures k in Keys(a) + Keys(b) {
      var i :| 0 <= i < |a + b| && Key((a + b)[i]) == k;
      if i >= |a| {
        assert (a + b)[i] == b[i - |a|];
      }
    }
    forall k | k in Keys(a) + Keys(b) ensures k in Keys(a + b) {
      if k in Keys(a) {
        var i :| 0 <= i < |a| && Key(a[i]) == k;
        assert (a + b)[i] == a[i];
      } else {
        var i :| 0 <= i < |b| && Key(b[i]) == k;
        assert (a + b)[|a| + i] == b[i];
      }
    }
  }

  /** No two rows that survive deduplication share a key. */
  lemma {:induction false} DropDuplicatesDistinct(s: seq<Renamed>)
    ensures var r := DropDuplicates(s);
      forall i, j :: 0 <= i < j < |r| ==> Key(r[i]) != Key(r[j])
  {
    if s != [] {
      var front := s[..|s| - 1];
      var last := s[|s| - 1];
      DropDuplicatesDistinct(front);
      DropDuplicatesKeys(front);
      var d := DropDuplicates(front);
      if Key(last) !in Keys(front) {
        var r := d + [last];
        forall i, j | 0 <= i < j < |r| ensures Key(r[i]) != Key(r[j]) {
          if j == |d| {
            assert r[i] == d[i];
          } else {
            assert r[i] == d[i] && r[j] == d[j];
          }
        }
      }
    }
  }

  lemma {:induction false} DropDuplicatesInOrder(s: seq<Renamed>)
    ensures IsSubsequence(DropDuplicates(s), s)
  {
    if s != [] {
      var front := s[..|s| - 1];
      var last := s[|s| - 1];
      var d := DropDuplicates(front);
      DropDuplicatesInOrder(front);
      assert s == front + [last];
      SubsequenceSnoc(d, front, last);
      if Key(last) in Keys(front) {
        assert DropDuplicates(s) == d + [];
        assert d + [] == d;
      } else {
        assert DropDuplicates(s) == d + [last];
      }
    }
  }

  /** Deduplication only deletes rows: the kept rows come from the input, in input order. */
  lemma {:induction false} DropDuplicatesSubsequence(s: seq<Renamed>)
    ensures forall i :: 0 <= i < |DropDuplicates(s)| ==> DropDuplicates(s)[i] in s
    ensures |DropDuplicates(s)| <= |s|
    ensures IsSubsequence(DropDuplicates(s), s)
  {
    DropDuplicatesInOrder(s);
    if s != [] {
      var front := s[..|s| - 1];
      DropDuplicatesSubsequence(front);
      var d := DropDuplicates(s);
      forall i | 0 <= i < |d| ensures d[i] in s {
        if i < |DropDuplicates(front)| {
          assert d[i] == DropDuplicates(front)[i];
          assert d[i] in front;
        }
      }
    }
  }

  /** Row `i` is the first with its key. */
  ghost predicate FirstOfKey(s: seq<Renamed>, i: int)
    requires 0 <= i < |s|
  {
    forall j :: 0 <= j < i ==> Key(s[j]) != Key(s[i])
  }

  /** Whether a row is the first of its key does not depend on the rows after it. */
  lemma FirstOfKeyPrefix(s: seq<Renamed>, n: nat, i: nat)
    requires i < n <= |s|
    ensures FirstOfKey(s[..n], i) <==> FirstOfKey(s, i)
  {
    assert forall j :: 0 <= j <= i ==> s[..n][j] == s[j];
  }

  /** `keep='first'`: a row no earlier row shares a key with is kept. */
  lemma {:induction false} DropDuplicatesKeepsFirst(s: seq<Renamed>, i: nat)
    requires i < |s| && FirstOfKey(s, i)
    ensures s[i] in DropDuplicates(s)
  {
    var n := |s| - 1;
    if i < n {
      var front := s[..n];
      FirstOfKeyPrefix(s, n, i);
      DropDuplicatesKeepsFirst(front, i);
      assert front[i] == s[i];
      DropDuplicatesGrows(s);
    } else {
      LastFirstIsKept(s);
    }
  }

  /** Deduplicating a longer frame only adds rows at the end. */
  lemma DropDuplicatesGrows(s: seq<Renamed>)
    requires s != []
    ensures forall r :: r in DropDuplicates(s[..|s| - 1]) ==> r in DropDuplicates(s)
  {
  }

  lemma LastFirstIsKept(s: seq<Renamed>)
    requires s != [] && FirstOfKey(s, |s| - 1)
    ensures s[|s| - 1] in DropDuplicates(s)
  {
    var n := |s| - 1;
    var front := s[..n];
    assert forall j :: 0 <= j < n ==> front[j] == s[j];
    assert Key(s[n]) !in Keys(front);
  }

  /** `keep='first'`: every kept row is a row no earlier row shares a key with. */
  lemma {:induction false} DropDuplicatesOnlyFirst(s: seq<Renamed>)
    ensures forall r :: r in DropDuplicates(s) ==> exists i :: 0 <= i < |s| && s[i] == r && FirstOfKey(s, i)
  {
    if s != [] {
      var n := |s| - 1;
      var front := s[..n];
      var last := s[n];
      DropDuplicatesOnlyFirst(front);
      var d := DropDuplicates(s);
      assert d == DropDuplicates(front) + if Key(last) in Keys(front) then [] else [last];
      forall r | r in d ensures exists i :: 0 <= i < |s| && s[i] == r && FirstOfKey(s, i) {
        if r in DropDuplicates(front) {
          var i :| 0 <= i < n && front[i] == r && FirstOfKey(front, i);
          FirstOfKeyPrefix(s, n, i);
          assert s[i] == r;
        } else {
          assert r == last && Key(last) !in Keys(front);
          assert FirstOfKey(s, n) by {
            forall j | 0 <= j < n ensures Key(s[j]) != Key(s[n]) {
              assert front[j] == s[j];
            }
          }
        }
      }
    }
  }

  /** Rows whose keys were all seen already add nothing. */
  lemma {:induction false} DropDuplicatesAbsorbs(x: seq<Renamed>, y: seq<Renamed>)
    requires Keys(y) <= Keys(x)
    ensures DropDuplicates(x + y) == DropDuplicates(x)
    decreases |y|
  {
    if y == [] {
      assert x + y == x;
    } else {
      var y' := y[..|y| - 1];
      var last := y[|y| - 1];
      assert (x + y)[..|x + y| - 1] == x + y';
      assert (x + y)[|x + y| - 1] == last;
      KeysAppend(y', [last]);
      assert y' + [last] == y;
      DropDuplicatesAbsorbs(x, y');
      KeysAppend(x, y');
      assert Key(last) in Keys(x + y');
    }
  }

  /** `clean` keeps only movie rows, each with its derived per-population GDP. */
  lemma CleanRows(merged: seq<MergedRow>)
    ensures forall u :: u in CleanSpec(merged) ==>
      exists i :: 0 <= i < |merged| && IsMovie(merged[i]) && u == Derive(Rename(merged[i]))
    ensures forall u :: u in CleanSpec(merged) ==>
      u.gdpPerPopulation == if u.population == 0.0 then None else Some(u.gdp / u.population)
  {
    var movies := Filter(merged, IsMovie);
    var renamed := Map(movies, Rename);
    var d := DropDuplicates(renamed);
    DropDuplicatesSubsequence(renamed);
    forall u | u in CleanSpec(merged)
      ensures exists i :: 0 <= i < |merged| && IsMovie(merged[i]) && u == Derive(Rename(merged[i]))
    {
      var k :| 0 <= k < |d| && Map(d, Derive)[k] == u;
      var j :| 0 <= j < |renamed| && renamed[j] == d[k];
      assert movies[j] in merged && IsMovie(movies[j]);
      var i :| 0 <= i < |merged| && merged[i] == movies[j];
    }
  }

  /**
   * After `clean`, the nine-column key identifies a row, and every movie row
   * of the input has its key represented.
   */
  lemma CleanKeys(merged: seq<MergedRow>)
    ensures var r := DropDuplicates(Map(Filter(merged, IsMovie), Rename));
      && (forall i, j :: 0 <= i < j < |r| ==> Key(r[i]) != Key(r[j]))
      && (forall i :: 0 <= i < |merged| && IsMovie(merged[i]) ==> Key(Rename(merged[i])) in Keys(r))
  {
    var movies := Filter(merged, IsMovie);
    var renamed := Map(movies, Rename);
    DropDuplicatesDistinct(renamed);
    DropDuplicatesKeys(renamed);
    forall i | 0 <= i < |merged| && IsMovie(merged[i]) ensures Key(Rename(merged[i])) in Keys(renamed) {
      var j :| 0 <= j < |movies| && movies[j] == merged[i];
      assert renamed[j] == Rename(merged[i]);
    }
  }

  lemma DeriveInjective()
    ensures Injective(Derive)
  {
    forall x: Renamed, y: Renamed | Derive(x) == Derive(y) ensures x == y {
    }
  }

  /**
   * `clean` keeps row order: its output is the list of all movie rows, renamed
   * and derived, with some rows deleted.
   */
  lemma CleanKeepsOrder(merged: seq<MergedRow>)
    ensures IsSubsequence(CleanSpec(merged), Map(Map(Filter(merged, IsMovie), Rename), Derive))
  {
    var renamed := Map(Filter(merged, IsMovie), Rename);
    DropDuplicatesSubsequence(renamed);
    DeriveInjective();
    SubsequenceMap(DropDuplicates(renamed), renamed, Derive);
  }

  /** Cleaning a frame concatenated with itself gives the same result as cleaning it once. */
  lemma CleanDuplicatedInput(x: seq<MergedRow>)
    ensures CleanSpec(x + x) == CleanSpec(x)
  {
    var y := Map(Filter(x, IsMovie), Rename);
    FilterAppend(x, x, IsMovie);
    MapAppend(Filter(x, IsMovie), Filter(x, IsMovie), Rename);
    DropDuplicatesAbsorbs(y, y);
  }
}
