/**
 * `merge_data` and the null-region filter in front of it: releases without
 * a region are dropped, then seven inner joins attach basics, ratings, crew,
 * the director's name, the country, and that country's population and GDP
 * in the film's start year.
 */
module Merge {
  import opened Common
  import opened Tables
  import opened Joins

  // ---------------------------------------------------------------------------
  // akas_df.dropna(subset=['region'])

  function HasRegion(r: RawRelease): bool { r.region.Some? }

  function ToRaw(r: Release): RawRelease { RawRelease(r.titleId, Some(r.region)) }

  /** A raw release as zero or one release: none when its region is null. */
  function Released(r: RawRelease): seq<Release> {
    match r.region
    case None => []
    case Some(g) => [Release(r.titleId, g)]
  }

  /** The releases that have a region, in their original order. */
  function DropNullRegion(raw: seq<RawRelease>): (r: seq<Release>)
    ensures forall x :: x in r <==> ToRaw(x) in raw
  {
    if raw == [] then []
    else
      var last := raw[|raw| - 1];
      var front := raw[..|raw| - 1];
      assert forall x :: x in raw <==> x in front || x == last;
      DropNullRegion(front) + Released(last)
  }

  lemma ReleasedIsFiltered(r: RawRelease)
    ensures Map(Released(r), ToRaw) == Filter([r], HasRegion)
  {
    assert [r][1..] == [];
  }

  /** Order is kept: putting the regions back gives exactly the rows whose region is not null. */
  lemma {:induction false} DropNullRegionKeepsOrder(raw: seq<RawRelease>)
    ensures Map(DropNullRegion(raw), ToRaw) == Filter(raw, HasRegion)
  {
    if raw != [] {
      var last := raw[|raw| - 1];
      var front := raw[..|raw| - 1];
      calc {
        Map(DropNullRegion(raw), ToRaw);
        Map(DropNullRegion(front) + Released(last), ToRaw);
        { MapAppend(DropNullRegion(front), Released(last), ToRaw); }
        Map(DropNullRegion(front), ToRaw) + Map(Released(last), ToRaw);
        { DropNullRegionKeepsOrder(front); ReleasedIsFiltered(last); }
        Filter(front, HasRegion) + Filter([last], HasRegion);
        { FilterAppend(front, [last], HasRegion); }
        Filter(front + [last], HasRegion);
        { assert front + [last] == raw; }
        Filter(raw, HasRegion);
      }
    }
  }

  // ---------------------------------------------------------------------------
  // The join chain.  Each stage pairs the frame so far with one more table.

  type WithBasics = (Release, Basics)
  type WithRatings = (WithBasics, Rating)
  type WithCrew = (WithRatings, Crew)
  type WithPeople = (WithCrew, Person)
  type WithCountry = (WithPeople, Country)
  type WithPopulation = (WithCountry, EconRow)
  type WithGdp = (WithPopulation, EconRow)

  function ReleaseTitle(a: Release): string { a.titleId }
  function BasicsTconst(b: Basics): string { b.tconst }
  function RatingTconst(c: Rating): string { c.tconst }
  function CrewTconst(d: Crew): string { d.tconst }
  function PersonNconst(e: Person): string { e.nconst }
  function CountryAlpha2(f: Country): string { f.alpha2 }
  /** `right_on=['Country Code', 'Year']`; the year is never null there. */
  function EconKey(g: EconRow): (string, Option<int>) { (g.countryCode, Some(g.year)) }

  function Tconst1(x: WithBasics): string { x.1.tconst }
  function Tconst2(x: WithRatings): string { x.0.1.tconst }
  function Directors3(x: WithCrew): string { x.1.directors }
  function Region4(x: WithPeople): string { x.0.0.0.0.region }
  /** `left_on=['alpha-3', 'startYear']`. */
  function CountryYear5(x: WithCountry): (string, Option<int>) { (x.1.alpha3, x.0.0.0.0.1.startYear) }
  function CountryYear6(x: WithPopulation): (string, Option<int>) { (x.0.1.alpha3, x.0.0.0.0.0.1.startYear) }

  function Stage7(a: seq<Release>, b: seq<Basics>, c: seq<Rating>, d: seq<Crew>, e: seq<Person>,
                  f: seq<Country>, g: seq<EconRow>, h: seq<EconRow>): seq<WithGdp>
  {
    var j1 := Join(a, b, ReleaseTitle, BasicsTconst);
    var j2 := Join(j1, c, Tconst1, RatingTconst);
    var j3 := Join(j2, d, Tconst2, CrewTconst);
    var j4 := Join(j3, e, Directors3, PersonNconst);
    var j5 := Join(j4, f, Region4, CountryAlpha2);
    var j6 := Join(j5, g, CountryYear5, EconKey);
    Join(j6, h, CountryYear6, EconKey)
  }

  /** One merged row from the eight rows it combines. */
  function Row(a: Release, b: Basics, c: Rating, d: Crew, e: Person, f: Country, g: EconRow, h: EconRow): MergedRow {
    MergedRow(a.titleId, a.region, b.tconst, b.titleType, b.primaryTitle, b.startYear,
              c.averageRating, c.numVotes, d.directors, e.nconst, e.primaryName,
              f.alpha2, f.alpha3, f.name, g.countryCode, g.year, g.value, h.countryCode, h.year, h.value)
  }

  function Flatten(x: WithGdp): MergedRow {
    Row(x.0.0.0.0.0.0.0, x.0.0.0.0.0.0.1, x.0.0.0.0.0.1, x.0.0.0.0.1, x.0.0.0.1, x.0.0.1, x.0.1, x.1)
  }

  /** The columns each merge matched on agree in a merged row. */
  predicate KeysAgree(m: MergedRow) {
    && m.titleId == m.tconst
    && m.directors == m.nconst
    && m.region == m.alpha2
    && m.popCode == m.alpha3 && m.startYear == Some(m.popYear)
    && m.gdpCode == m.alpha3 && m.startYear == Some(m.gdpYear)
  }

  /** `merge_data`: the frame after the seventh merge; every row agrees on its merge keys. */
  function MergeData(a: seq<Release>, b: seq<Basics>, c: seq<Rating>, d: seq<Crew>, e: seq<Person>,
                     f: seq<Country>, g: seq<EconRow>, h: seq<EconRow>): (r: seq<MergedRow>)
    ensures forall m :: m in r ==> KeysAgree(m)
  {
    var pairs := Stage7(a, b, c, d, e, f, g, h);
    assert forall x :: x in pairs ==> KeysAgree(Flatten(x)) by {
      forall x | x in pairs ensures KeysAgree(Flatten(x)) {
        Stage7Members(a, b, c, d, e, f, g, h, x);
      }
    }
    Map(pairs, Flatten)
  }

  /** The key equalities the seven merges demand of the eight rows a merged row combines. */
  predicate Linked(a: Release, b: Basics, c: Rating, d: Crew, e: Person, f: Country, g: EconRow, h: EconRow) {
    && a.titleId == b.tconst
    && c.tconst == b.tconst
    && d.tconst == b.tconst
    && e.nconst == d.directors
    && f.alpha2 == a.region
    && g.countryCode == f.alpha3 && b.startYear == Some(g.year)
    && h.countryCode == f.alpha3 && b.startYear == Some(h.year)
  }

  /** The eight rows a pair of the last stage combines. */
  ghost predicate FromTables(x: WithGdp, a: seq<Release>, b: seq<Basics>, c: seq<Rating>, d: seq<Crew>, e: seq<Person>,
                             f: seq<Country>, g: seq<EconRow>, h: seq<EconRow>)
  {
    && x.0.0.0.0.0.0.0 in a && x.0.0.0.0.0.0.1 in b && x.0.0.0.0.0.1 in c && x.0.0.0.0.1 in d
    && x.0.0.0.1 in e && x.0.0.1 in f && x.0.1 in g && x.1 in h
    && Linked(x.0.0.0.0.0.0.0, x.0.0.0.0.0.0.1, x.0.0.0.0.0.1, x.0.0.0.0.1, x.0.0.0.1, x.0.0.1, x.0.1, x.1)
  }

  /** A pair is in the last stage exactly when its eight rows come from the eight tables and are linked. */
  lemma Stage7Members(a: seq<Release>, b: seq<Basics>, c: seq<Rating>, d: seq<Crew>, e: seq<Person>,
                      f: seq<Country>, g: seq<EconRow>, h: seq<EconRow>, x: WithGdp)
    ensures x in Stage7(a, b, c, d, e, f, g, h) <==> FromTables(x, a, b, c, d, e, f, g, h)
  {
    var j1 := Join(a, b, ReleaseTitle, BasicsTconst);
    var j2 := Join(j1, c, Tconst1, RatingTconst);
    var j3 := Join(j2, d, Tconst2, CrewTconst);
    var j4 := Join(j3, e, Directors3, PersonNconst);
    var j5 := Join(j4, f, Region4, CountryAlpha2);
    var j6 := Join(j5, g, CountryYear5, EconKey);
    assert x in Stage7(a, b, c, d, e, f, g, h) <==> x.0 in j6 && x.1 in h && CountryYear6(x.0) == EconKey(x.1);
    assert x.0 in j6 <==> x.0.0 in j5 && x.0.1 in g && CountryYear5(x.0.0) == EconKey(x.0.1);
    assert x.0.0 in j5 <==> x.0.0.0 in j4 && x.0.0.1 in f && Region4(x.0.0.0) == CountryAlpha2(x.0.0.1);
    assert x.0.0.0 in j4 <==> x.0.0.0.0 in j3 && x.0.0.0.1 in e && Directors3(x.0.0.0.0) == PersonNconst(x.0.0.0.1);
    assert x.0.0.0.0 in j3 <==> x.0.0.0.0.0 in j2 && x.0.0.0.0.1 in d && Tconst2(x.0.0.0.0.0) == CrewTconst(x.0.0.0.0.1);
    assert x.0.0.0.0.0 in j2 <==> x.0.0.0.0.0.0 in j1 && x.0.0.0.0.0.1 in c && Tconst1(x.0.0.0.0.0.0) == RatingTconst(x.0.0.0.0.0.1);
  }

  /** Linked rows, one from each table, do give a merged row. */
  lemma MergeHasLinked(a: seq<Release>, b: seq<Basics>, c: seq<Rating>, d: seq<Crew>, e: seq<Person>,
                       f: seq<Country>, g: seq<EconRow>, h: seq<EconRow>,
                       ra: Release, rb: Basics, rc: Rating, rd: Crew, re: Person, rf: Country, rg: EconRow, rh: EconRow)
    requires ra in a && rb in b && rc in c && rd in d && re in e && rf in f && rg in g && rh in h
    requires Linked(ra, rb, rc, rd, re, rf, rg, rh)
    ensures Row(ra, rb, rc, rd, re, rf, rg, rh) in MergeData(a, b, c, d, e, f, g, h)
  {
    var s := Stage7(a, b, c, d, e, f, g, h);
    var x := (((((((ra, rb), rc), rd), re), rf), rg), rh);
    Stage7Members(a, b, c, d, e, f, g, h, x);
    var i :| 0 <= i < |s| && s[i] == x;
    var out := MergeData(a, b, c, d, e, f, g, h);
    assert out[i] == Flatten(x);
    assert Flatten(x) == Row(ra, rb, rc, rd, re, rf, rg, rh);
  }

  /**
   * A release whose country has no population row for the film's start year
   * yields no merged row (and likewise for GDP).
   */
  lemma MissingPopulationDropsRelease(a: seq<Release>, b: seq<Basics>, c: seq<Rating>, d: seq<Crew>, e: seq<Person>,
                                      f: seq<Country>, g: seq<EconRow>, h: seq<EconRow>, x: Release)
    requires forall rb, rf, rg ::
      (rb in b && rf in f && rg in g && rb.tconst == x.titleId && rf.alpha2 == x.region && rg.countryCode == rf.alpha3)
      ==> rb.startYear != Some(rg.year)
    ensures forall m :: m in MergeData(a, b, c, d, e, f, g, h) ==> m.titleId != x.titleId || m.region != x.region
  {
    forall m | m in MergeData(a, b, c, d, e, f, g, h) ensures m.titleId != x.titleId || m.region != x.region {
      MergeMembers(a, b, c, d, e, f, g, h, m);
      var ra, rb, rc, rd, re, rf, rg, rh :|
        && ra in a && rb in b && rc in c && rd in d && re in e && rf in f && rg in g && rh in h
        && Linked(ra, rb, rc, rd, re, rf, rg, rh) && m == Row(ra, rb, rc, rd, re, rf, rg, rh);
    }
  }

  /**
   * Exactly the combinations of one row per table whose keys match appear in the merged frame:
   * a release row contributes only when it has a matching row in every one of the seven tables.
   */
  lemma MergeMembers(a: seq<Release>, b: seq<Basics>, c: seq<Rating>, d: seq<Crew>, e: seq<Person>,
                     f: seq<Country>, g: seq<EconRow>, h: seq<EconRow>, m: MergedRow)
    ensures m in MergeData(a, b, c, d, e, f, g, h) <==>
      exists ra, rb, rc, rd, re, rf, rg, rh ::
        && ra in a && rb in b && rc in c && rd in d && re in e && rf in f && rg in g && rh in h
        && Linked(ra, rb, rc, rd, re, rf, rg, rh) && m == Row(ra, rb, rc, rd, re, rf, rg, rh)
  {
    var s := Stage7(a, b, c, d, e, f, g, h);
    var out := MergeData(a, b, c, d, e, f, g, h);
    if m in out {
      var i :| 0 <= i < |out| && out[i] == m;
      var x := s[i];
      Stage7Members(a, b, c, d, e, f, g, h, x);
      assert m == Row(x.0.0.0.0.0.0.0, x.0.0.0.0.0.0.1, x.0.0.0.0.0.1, x.0.0.0.0.1, x.0.0.0.1, x.0.0.1, x.0.1, x.1);
    }
    if exists ra, rb, rc, rd, re, rf, rg, rh ::
        && ra in a && rb in b && rc in c && rd in d && re in e && rf in f && rg in g && rh in h
        && Linked(ra, rb, rc, rd, re, rf, rg, rh) && m == Row(ra, rb, rc, rd, re, rf, rg, rh)
    {
      var ra, rb, rc, rd, re, rf, rg, rh :|
        && ra in a && rb in b && rc in c && rd in d && re in e && rf in f && rg in g && rh in h
        && Linked(ra, rb, rc, rd, re, rf, rg, rh) && m == Row(ra, rb, rc, rd, re, rf, rg, rh);
      MergeHasLinked(a, b, c, d, e, f, g, h, ra, rb, rc, rd, re, rf, rg, rh);
    }
  }

  // ---------------------------------------------------------------------------
  // With unique keys in every lookup table: one row per surviving release, in release order

  /** Every table a release row is looked up in has unique keys on the columns it is joined on. */
  ghost predicate UniqueLookups(b: seq<Basics>, c: seq<Rating>, d: seq<Crew>, e: seq<Person>,
                                f: seq<Country>, g: seq<EconRow>, h: seq<EconRow>)
  {
    && UniqueKeys(b, BasicsTconst) && UniqueKeys(c, RatingTconst) && UniqueKeys(d, CrewTconst)
    && UniqueKeys(e, PersonNconst) && UniqueKeys(f, CountryAlpha2) && UniqueKeys(g, EconKey) && UniqueKeys(h, EconKey)
  }

  /** The merged row of one release, found by looking it up table by table; None when a lookup fails. */
  function Attach(x: Release, b: seq<Basics>, c: seq<Rating>, d: seq<Crew>, e: seq<Person>,
                  f: seq<Country>, g: seq<EconRow>, h: seq<EconRow>): Option<MergedRow>
  {
    var rb :- Lookup(b, BasicsTconst, x.titleId);
    var rc :- Lookup(c, RatingTconst, rb.tconst);
    var rd :- Lookup(d, CrewTconst, rb.tconst);
    var re :- Lookup(e, PersonNconst, rd.directors);
    var rf :- Lookup(f, CountryAlpha2, x.region);
    var rg :- Lookup(g, EconKey, (rf.alpha3, rb.startYear));
    var rh :- Lookup(h, EconKey, (rf.alpha3, rb.startYear));
    Some(Row(x, rb, rc, rd, re, rf, rg, rh))
  }

  function AsSeq<T>(o: Option<T>): seq<T> {
    match o case None => [] case Some(v) => [v]
  }

  /** Release after release, the row its lookups give (if they all succeed). */
  function LookupMerge(a: seq<Release>, b: seq<Basics>, c: seq<Rating>, d: seq<Crew>, e: seq<Person>,
                       f: seq<Country>, g: seq<EconRow>, h: seq<EconRow>): (r: seq<MergedRow>)
    ensures |r| <= |a|
  {
    if a == [] then []
    else LookupMerge(a[..|a| - 1], b, c, d, e, f, g, h) + AsSeq(Attach(a[|a| - 1], b, c, d, e, f, g, h))
  }

  /** The merge distributes over a split of the releases: it keeps release order. */
  lemma MergeAppend(a: seq<Release>, a': seq<Release>, b: seq<Basics>, c: seq<Rating>, d: seq<Crew>, e: seq<Person>,
                    f: seq<Country>, g: seq<EconRow>, h: seq<EconRow>)
    ensures MergeData(a + a', b, c, d, e, f, g, h) == MergeData(a, b, c, d, e, f, g, h) + MergeData(a', b, c, d, e, f, g, h)
  {
    JoinAppend(a, a', b, ReleaseTitle, BasicsTconst);
    var j1, j1' := Join(a, b, ReleaseTitle, BasicsTconst), Join(a', b, ReleaseTitle, BasicsTconst);
    JoinAppend(j1, j1', c, Tconst1, RatingTconst);
    var j2, j2' := Join(j1, c, Tconst1, RatingTconst), Join(j1', c, Tconst1, RatingTconst);
    JoinAppend(j2, j2', d, Tconst2, CrewTconst);
    var j3, j3' := Join(j2, d, Tconst2, CrewTconst), Join(j2', d, Tconst2, CrewTconst);
    JoinAppend(j3, j3', e, Directors3, PersonNconst);
    var j4, j4' := Join(j3, e, Directors3, PersonNconst), Join(j3', e, Directors3, PersonNconst);
    JoinAppend(j4, j4', f, Region4, CountryAlpha2);
    var j5, j5' := Join(j4, f, Region4, CountryAlpha2), Join(j4', f, Region4, CountryAlpha2);
    JoinAppend(j5, j5', g, CountryYear5, EconKey);
    var j6, j6' := Join(j5, g, CountryYear5, EconKey), Join(j5', g, CountryYear5, EconKey);
    JoinAppend(j6, j6', h, CountryYear6, EconKey);
    MapAppend(Stage7(a, b, c, d, e, f, g, h), Stage7(a', b, c, d, e, f, g, h), Flatten);
  }

  /** With unique lookup keys, one release row merges into its lookup chain's row, or into nothing. */
  lemma MergeOne(x: Release, b: seq<Basics>, c: seq<Rating>, d: seq<Crew>, e: seq<Person>,
                 f: seq<Country>, g: seq<EconRow>, h: seq<EconRow>)
    requires UniqueLookups(b, c, d, e, f, g, h)
    ensures MergeData([x], b, c, d, e, f, g, h) == AsSeq(Attach(x, b, c, d, e, f, g, h))
  {
    var s := Stage7([x], b, c, d, e, f, g, h);
    var j1 := Join([x], b, ReleaseTitle, BasicsTconst);
    var j2 := Join(j1, c, Tconst1, RatingTconst);
    var j3 := Join(j2, d, Tconst2, CrewTconst);
    var j4 := Join(j3, e, Directors3, PersonNconst);
    var j5 := Join(j4, f, Region4, CountryAlpha2);
    var j6 := Join(j5, g, CountryYear5, EconKey);
    assert s == Join(j6, h, CountryYear6, EconKey);
    JoinAtMostOne([x], b, ReleaseTitle, BasicsTconst);
    var ob := Lookup(b, BasicsTconst, x.titleId);
    if ob.None? {
      assert j1 == [] && j2 == [] && j3 == [] && j4 == [] && j5 == [] && j6 == [] && s == [];
      return;
    }
    var rb := ob.value;
    assert j1 == [(x, rb)];
    JoinAtMostOne(j1, c, Tconst1, RatingTconst);
    var oc := Lookup(c, RatingTconst, rb.tconst);
    if oc.None? {
      assert j2 == [] && j3 == [] && j4 == [] && j5 == [] && j6 == [] && s == [];
      return;
    }
    var rc := oc.value;
    assert j2 == [((x, rb), rc)];
    JoinAtMostOne(j2, d, Tconst2, CrewTconst);
    var od := Lookup(d, CrewTconst, rb.tconst);
    if od.None? {
      assert j3 == [] && j4 == [] && j5 == [] && j6 == [] && s == [];
      return;
    }
    var rd := od.value;
    assert j3 == [(((x, rb), rc), rd)];
    JoinAtMostOne(j3, e, Directors3, PersonNconst);
    var oe := Lookup(e, PersonNconst, rd.directors);
    if oe.None? {
      assert j4 == [] && j5 == [] && j6 == [] && s == [];
      return;
    }
    var re := oe.value;
    assert j4 == [((((x, rb), rc), rd), re)];
    JoinAtMostOne(j4, f, Region4, CountryAlpha2);
    var of := Lookup(f, CountryAlpha2, x.region);
    if of.None? {
      assert j5 == [] && j6 == [] && s == [];
      return;
    }
    var rf := of.value;
    assert j5 == [(((((x, rb), rc), rd), re), rf)];
    JoinAtMostOne(j5, g, CountryYear5, EconKey);
    var og := Lookup(g, EconKey, (rf.alpha3, rb.startYear));
    if og.None? {
      assert j6 == [] && s == [];
      return;
    }
    var rg := og.value;
    assert j6 == [((((((x, rb), rc), rd), re), rf), rg)];
    JoinAtMostOne(j6, h, CountryYear6, EconKey);
    var oh := Lookup(h, EconKey, (rf.alpha3, rb.startYear));
    if oh.None? {
      assert s == [];
      return;
    }
    var rh := oh.value;
    assert s == [(((((((x, rb), rc), rd), re), rf), rg), rh)];
    assert Attach(x, b, c, d, e, f, g, h) == Some(Row(x, rb, rc, rd, re, rf, rg, rh));
  }

  /**
   * When every lookup table has unique keys, the merge is the per-release
   * lookup chain: one row for each release row whose seven lookups succeed,
   * in release order, and no row for a release with a failed lookup.
   */
  lemma {:induction false} MergeByLookup(a: seq<Release>, b: seq<Basics>, c: seq<Rating>, d: seq<Crew>, e: seq<Person>,
                                         f: seq<Country>, g: seq<EconRow>, h: seq<EconRow>)
    requires UniqueLookups(b, c, d, e, f, g, h)
    ensures MergeData(a, b, c, d, e, f, g, h) == LookupMerge(a, b, c, d, e, f, g, h)
    ensures |MergeData(a, b, c, d, e, f, g, h)| <= |a|
  {
    if a != [] {
      var front, last := a[..|a| - 1], a[|a| - 1];
      assert a == front + [last];
      MergeByLookup(front, b, c, d, e, f, g, h);
      MergeAppend(front, [last], b, c, d, e, f, g, h);
      MergeOne(last, b, c, d, e, f, g, h);
    }
  }
}
