/**
 * `filter_years`: restricts basics, population and GDP to the years that
 * all three contain (and, when both bounds are given, that lie in the
 * inclusive range between them); raises when no such year is left.
 */
module YearFilter {
  import opened Common
  import opened Tables

  /** The distinct non-null `startYear`s of basics. */
  function BasicsYears(b: seq<Basics>): (ys: set<int>)
    ensures forall y :: y in ys <==> exists i :: 0 <= i < |b| && b[i].startYear == Some(y)
  {
    if b == [] then {}
    else
      var last := b[|b| - 1];
      var front := BasicsYears(b[..|b| - 1]);
      assert forall i :: 0 <= i < |b| - 1 ==> b[..|b| - 1][i] == b[i];
      front + if last.startYear.Some? then {last.startYear.value} else {}
  }

  /** The distinct `Year`s of a reshaped World Bank table. */
  function EconYears(e: seq<EconRow>): (ys: set<int>)
    ensures forall y :: y in ys <==> exists i :: 0 <= i < |e| && e[i].year == y
  {
    if e == [] then {}
    else
      var front := EconYears(e[..|e| - 1]);
      assert forall i :: 0 <= i < |e| - 1 ==> e[..|e| - 1][i] == e[i];
      front + {e[|e| - 1].year}
  }

  /** Python truthiness of an optional year bound: None and 0 both count as "not given". */
  predicate Truthy(bound: Option<int>) {
    bound.Some? && bound.value != 0
  }

  /** The years that survive: common to all three tables, and in range when both bounds are given. */
  function SelectedYears(b: seq<Basics>, pop: seq<EconRow>, gdp: seq<EconRow>, start: Option<int>, end: Option<int>): (ys: set<int>)
    ensures forall y :: y in ys <==>
      && (exists i :: 0 <= i < |b| && b[i].startYear == Some(y))
      && (exists i :: 0 <= i < |pop| && pop[i].year == y)
      && (exists i :: 0 <= i < |gdp| && gdp[i].year == y)
      && (Truthy(start) && Truthy(end) ==> start.value <= y <= end.value)
  {
    var common := BasicsYears(b) * EconYears(pop) * EconYears(gdp);
    if Truthy(start) && Truthy(end) then set y | y in common && start.value <= y <= end.value
    else common
  }

  const NoCommonYearsMessage: string := "No common years found between the datasets."

  /** The ValueError `filter_years` raises. */
  datatype FilterError = NoCommonYears(message: string)

  /** The three filtered tables. */
  datatype Filtered = Filtered(basics: seq<Basics>, population: seq<EconRow>, gdp: seq<EconRow>)

  /** `basics_df[basics_df['startYear'].isin(ys)]`: a null year is in no set. */
  function KeepBasics(b: seq<Basics>, ys: set<int>): (r: seq<Basics>)
    ensures forall i :: 0 <= i < |r| ==> r[i] in b && r[i].startYear.Some? && r[i].startYear.value in ys
    ensures forall i :: 0 <= i < |b| && b[i].startYear.Some? && b[i].startYear.value in ys ==> b[i] in r
  {
    Filter(b, (x: Basics) => x.startYear.Some? && x.startYear.value in ys)
  }

  /** `df[df['Year'].isin(ys)]`. */
  function KeepEcon(e: seq<EconRow>, ys: set<int>): (r: seq<EconRow>)
    ensures forall i :: 0 <= i < |r| ==> r[i] in e && r[i].year in ys
    ensures forall i :: 0 <= i < |e| && e[i].year in ys ==> e[i] in r
  {
    Filter(e, (x: EconRow) => x.year in ys)
  }

  function FilterYears(b: seq<Basics>, pop: seq<EconRow>, gdp: seq<EconRow>, start: Option<int>, end: Option<int>): (r: Result<Filtered, FilterError>)
    ensures r.Err? <==> SelectedYears(b, pop, gdp, start, end) == {}
    ensures r.Err? ==> r.error == NoCommonYears(NoCommonYearsMessage)
    ensures r.Ok? ==>
      var ys := SelectedYears(b, pop, gdp, start, end);
      r.value == Filtered(KeepBasics(b, ys), KeepEcon(pop, ys), KeepEcon(gdp, ys))
  {
    var ys := SelectedYears(b, pop, gdp, start, end);
    if ys == {} then Err(NoCommonYears(NoCommonYearsMessage))
    else Ok(Filtered(KeepBasics(b, ys), KeepEcon(pop, ys), KeepEcon(gdp, ys)))
  }

  lemma KeepBasicsOrder(b: seq<Basics>, ys: set<int>)
    ensures IsSubsequence(KeepBasics(b, ys), b)
  {
    FilterIsSubsequence(b, (x: Basics) => x.startYear.Some? && x.startYear.value in ys);
  }

  lemma KeepEconOrder(e: seq<EconRow>, ys: set<int>)
    ensures IsSubsequence(KeepEcon(e, ys), e)
  {
    FilterIsSubsequence(e, (x: EconRow) => x.year in ys);
  }

  /** Each filtered table is obtained from its input by deleting rows: the order is kept. */
  lemma FilterYearsKeepsOrder(b: seq<Basics>, pop: seq<EconRow>, gdp: seq<EconRow>, start: Option<int>, end: Option<int>)
    ensures FilterYears(b, pop, gdp, start, end).Ok? ==>
      var f := FilterYears(b, pop, gdp, start, end).value;
      IsSubsequence(f.basics, b) && IsSubsequence(f.population, pop) && IsSubsequence(f.gdp, gdp)
  {
    var ys := SelectedYears(b, pop, gdp, start, end);
    KeepBasicsOrder(b, ys);
    KeepEconOrder(pop, ys);
    KeepEconOrder(gdp, ys);
  }

  /** The years left in filtered basics are the kept years that basics had. */
  lemma KeepBasicsYears(b: seq<Basics>, ys: set<int>)
    ensures BasicsYears(KeepBasics(b, ys)) == BasicsYears(b) * ys
  {
    var r := KeepBasics(b, ys);
    forall y | y in BasicsYears(b) * ys ensures y in BasicsYears(r) {
      var i :| 0 <= i < |b| && b[i].startYear == Some(y);
      var k :| 0 <= k < |r| && r[k] == b[i];
    }
    forall y | y in BasicsYears(r) ensures y in BasicsYears(b) * ys {
      var k :| 0 <= k < |r| && r[k].startYear == Some(y);
      var i :| 0 <= i < |b| && b[i] == r[k];
    }
  }

  lemma KeepEconYears(e: seq<EconRow>, ys: set<int>)
    ensures EconYears(KeepEcon(e, ys)) == EconYears(e) * ys
  {
    var r := KeepEcon(e, ys);
    forall y | y in EconYears(e) * ys ensures y in EconYears(r) {
      var i :| 0 <= i < |e| && e[i].year == y;
      var k :| 0 <= k < |r| && r[k] == e[i];
    }
    forall y | y in EconYears(r) ensures y in EconYears(e) * ys {
      var k :| 0 <= k < |r| && r[k].year == y;
      var i :| 0 <= i < |e| && e[i] == r[k];
    }
  }

  /**
   * On success every filtered table holds exactly the selected years: each
   * selected year still occurs in each of the three tables, and no other year does.
   */
  lemma FilteredYearsAreSelected(b: seq<Basics>, pop: seq<EconRow>, gdp: seq<EconRow>, start: Option<int>, end: Option<int>)
    ensures FilterYears(b, pop, gdp, start, end).Ok? ==>
      var f := FilterYears(b, pop, gdp, start, end).value;
      var ys := SelectedYears(b, pop, gdp, start, end);
      BasicsYears(f.basics) == ys && EconYears(f.population) == ys && EconYears(f.gdp) == ys
  {
    var ys := SelectedYears(b, pop, gdp, start, end);
    KeepBasicsYears(b, ys);
    KeepEconYears(pop, ys);
    KeepEconYears(gdp, ys);
    assert ys <= BasicsYears(b) && ys <= EconYears(pop) && ys <= EconYears(gdp);
  }

  /** A bound of 0 is falsy in Python, so it switches the range off just like a missing bound. */
  lemma ZeroBoundIsNoBound(b: seq<Basics>, pop: seq<EconRow>, gdp: seq<EconRow>, end: Option<int>)
    ensures FilterYears(b, pop, gdp, Some(0), end) == FilterYears(b, pop, gdp, None, end)
    ensures FilterYears(b, pop, gdp, end, Some(0)) == FilterYears(b, pop, gdp, end, None)
  {
  }

  /** With one bound missing, the selected years are the common years. */
  lemma OneBoundIsNoRange(b: seq<Basics>, pop: seq<EconRow>, gdp: seq<EconRow>, start: Option<int>)
    ensures SelectedYears(b, pop, gdp, start, None) == BasicsYears(b) * EconYears(pop) * EconYears(gdp)
    ensures SelectedYears(b, pop, gdp, None, start) == BasicsYears(b) * EconYears(pop) * EconYears(gdp)
  {
  }
}
