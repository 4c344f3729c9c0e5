# IMDb × World Bank pipeline: a Dafny model of its data core

This project models the data core of a small analysis pipeline. The pipeline joins IMDb title tables with World Bank population and GDP series, then ranks countries by the ratings of their best films. The model covers these stages of `data_analysis/data_processing.py`:

- the reshaping of a wide World Bank series into long `(country code, year, value)` rows;
- the selection of the years that all the datasets share;
- the drop of releases with no region;
- the seven-way merge;
- the cleaning step: the movie filter, the column drop and rename, the drop of duplicate rows and the derived GDP per inhabitant.

From `data_analysis/analysis.py` the model covers:

- the "top *n* films per country" aggregate;
- the "ten best countries" step of task 1.

A pandas DataFrame is modelled as a sequence of typed records (module `Tables`). A null cell is `Option.None`. A raised exception is the `Err` case of a `Result`.

The only explicit loop in the core is the `for n in numbers` of `perform_task_1` (data_analysis/analysis.py:13); it computes one table per `n` independently and `Analysis.Task1` maps that computation over `numbers`. The vectorised pandas steps of `process_world_bank_data` and `clean` work on a frame step by step, in place. They are modelled as methods with loops. Each method is proved equal to a specification function (`Reshape`, `CleanSpec`), and the properties are proved about those functions. The other stages are pure functions of their input frames, so they are modelled as functions with lemmas.

Modules:

- `Common`: `Option`, `Result`, `Filter`, `Map` and subsequences.
- `Tables`: the record types.
- `PyInt`: Python's `int()` on a string.
- `WorldBank`: `process_world_bank_data`.
- `YearFilter`: `filter_years`.
- `Joins`: the inner join of `DataFrame.merge`.
- `Merge`: the null-region filter and `merge_data`.
- `Clean`: `clean`.
- `Sorting`: the stable `sort_values`.
- `StringOrder`: Python string order.
- `Analysis`: `get_top_n_movies_per_country` and task 1.

Semantics that the model writes out explicitly:

- **Year headers.** A year header is read as Python's `int()` of its first five characters. `int()` strips white space on both sides, takes an optional sign, and accepts digit groups joined by single underscores. "2000 [YR2000]" therefore reads as 2000. "2000[YR2000]" raises.
- **Year bounds.** `if start_year and end_year` uses Python truthiness. A bound of `0` or `None` therefore means "no range".
- **Inner joins.** The model follows the inner-merge row order of pandas 2.2 and later: `DataFrame.merge` with the default `how='inner'` keeps the left table's row order, and within one left row the matching right rows keep the right table's order. Earlier pandas versions group the rows of an inner merge by key, in order of each key's first appearance on the left.
- **Sort stability.** A multi-column `sort_values` is stable, so rows that tie on every key keep their input order. `groupby(...).head(n)` keeps a row while fewer than `n` earlier rows share its key. `groupby` lists its groups in ascending key order.
- **String order.** Text is compared as Python compares `str`: code point by code point, with a proper prefix first.

## Model

| member | source | states |
|---|---|---|
| WorldBank.ProcessWorldBankData | data_analysis/data_processing.py:103-117 | The three steps give exactly `Reshape(t)`: melt the year columns, convert each header to a year (raising on the first malformed one), then drop rows with a null country code or value |
| WorldBank.MeltRows | data_analysis/data_processing.py:112-113 | The melt loop yields `Melt(t)`: one long row per (year column, input row), column by column, rows in input order within a column |
| WorldBank.ConvertYears | data_analysis/data_processing.py:114 | The year-conversion loop yields `ParseYears(melted, HeaderYear)`: stop at the first header whose five-character prefix is not an integer |
| WorldBank.DropNulls | data_analysis/data_processing.py:115 | The null-drop loop yields `DropMissing(years)`: keeps exactly the rows whose country code and value are both present, in order |
| WorldBank.ReshapeByYearColumn | data_analysis/data_processing.py:112-115 | When every header reads as a year, the result is `Ok` of the column-major listing of present cells: every country with a value for the first year, then the second year, and so on |
| WorldBank.ByYearColumnMembers | data_analysis/data_processing.py:113-115 | A long row is in that listing iff some input row has that non-null country code and that non-null value in a column whose header reads as that year |
| WorldBank.ParseYearsFails | data_analysis/data_processing.py:114 | Year conversion fails iff some melted row's header does not parse; the error names the five-character prefix of such a header |
| WorldBank.ReshapeFails | data_analysis/data_processing.py:113-114 | The whole step raises iff the table has at least one row and some year header is malformed; the error carries that header's prefix |
| WorldBank.ReshapeNoRows | data_analysis/data_processing.py:113-115 | A table without rows reshapes to no rows, whatever its headers are (the lambda is never applied) |
| WorldBank.SampleWithMissingValue | tests/test_data_processing.py:44-57 | The three-country sample with one missing 2000 value reshapes to the five rows the test expects, year by year |
| PyInt.WorldBankHeaderYear | data_analysis/data_processing.py:114 | Any header made of a four-digit year, a space and any text reads as that year |
| PyInt.SampleHeaderYears | tests/test_data_processing.py:18-19 | The sample headers "2000 [YR2000]" and "2001 [YR2001]" read as 2000 and 2001 |
| PyInt.HeaderWithoutSpaceIsMalformed | data_analysis/data_processing.py:114 | A four-digit year glued to "[" gives a prefix `int()` rejects |
| PyInt.ParseDigitsThenSpace | data_analysis/data_processing.py:114 | `int()` of decimal digits followed by a space is the number the digits denote |
| PyInt.ParseIntInvertsDecimal | data_analysis/data_processing.py:114 | `int()` reads the decimal spelling of every natural number back as that number |
| PyInt.DecimalRoundTrip | data_analysis/data_processing.py:114 | Writing a natural number in decimal and reading the digits back gives the number |
| YearFilter.BasicsYears | data_analysis/data_processing.py:138 | A year is in the set iff some title has it as a non-null start year |
| YearFilter.EconYears | data_analysis/data_processing.py:139-140 | A year is in the set iff some population (or GDP) row has it |
| YearFilter.SelectedYears | data_analysis/data_processing.py:138-145 | A year is selected iff it is a non-null start year of some title, a population year and a GDP year, and lies within `start..end` when both bounds are truthy |
| YearFilter.FilterYears | data_analysis/data_processing.py:142-154 | Raises the "no common years" error iff no year is selected; otherwise returns each table restricted to the selected years |
| YearFilter.KeepBasics | data_analysis/data_processing.py:150 | A title is kept iff its start year is present and selected |
| YearFilter.KeepEcon | data_analysis/data_processing.py:151-152 | A population or GDP row is kept iff its year is selected |
| YearFilter.FilterYearsKeepsOrder | data_analysis/data_processing.py:150-152 | Each filtered table is a subsequence of its input, so row order is preserved |
| YearFilter.FilteredYearsAreSelected | data_analysis/data_processing.py:138-152 | The years present in each of the three outputs are exactly the selected years |
| YearFilter.ZeroBoundIsNoBound | data_analysis/data_processing.py:144 | A bound of 0 behaves as a missing bound |
| YearFilter.OneBoundIsNoRange | data_analysis/data_processing.py:144-145 | With one bound missing, the selection is the plain intersection of the three year sets |
| Merge.DropNullRegion | data_analysis/data_processing.py:53-54 | A release is kept iff its region is not null |
| Merge.DropNullRegionKeepsOrder | data_analysis/data_processing.py:54 | The kept releases are the input rows with a region, in input order |
| Joins.Join | data_analysis/data_processing.py:189-197 | An inner merge holds a pair iff its left row is in the left table, its right row is in the right table and their keys are equal |
| Joins.JoinAppend | data_analysis/data_processing.py:189-197 | An inner merge of concatenated left tables is the concatenation of the merges, so left order is preserved |
| Joins.Lookup | data_analysis/data_processing.py:189-197 | A lookup returns a right row carrying the key, and returns none only when no right row carries it |
| Joins.JoinAtMostOne | data_analysis/data_processing.py:189-197 | When the right key is unique, a single left row merges into at most one pair, the looked-up one |
| Merge.MergeMembers | data_analysis/data_processing.py:189-197 | A merged row exists iff one row from each of the eight tables links on all seven merge keys (title, ratings, crew, director, country, population year, GDP year) and the row is built from them |
| Merge.MergeHasLinked | data_analysis/data_processing.py:189-197 | Every linked choice of eight rows appears in the merge |
| Merge.MissingPopulationDropsRelease | data_analysis/data_processing.py:194-195 | A release whose country has no population row for its title's start year appears in no merged row |
| Merge.MergeData | data_analysis/data_processing.py:189-199 | Every row of the merged frame agrees on each merge's key columns: title id and `tconst`, director and `nconst`, region and `alpha-2`, `alpha-3` and both country codes, start year and both years |
| Merge.MergeAppend | data_analysis/data_processing.py:189 | The merge of concatenated release tables is the concatenation of their merges, so release order is kept (pandas 2.2 inner-merge order) |
| Merge.MergeByLookup | data_analysis/data_processing.py:189-197 | With unique keys on the right-hand tables, the merge is a per-release lookup and yields at most one row per release |
| Clean.CleanFrame | data_analysis/data_processing.py:202-228 | The cleaning steps yield `CleanSpec(merged)`: movies only, renamed, first row per deduplication key, GDP per inhabitant added |
| Clean.MovieRows | data_analysis/data_processing.py:210-219 | The filter-and-rename loop keeps exactly the movie rows, in order, with the `clean` column names |
| Clean.DropDuplicateRows | data_analysis/data_processing.py:220-224 | The deduplication loop yields `DropDuplicates(s)` |
| Clean.DeriveRows | data_analysis/data_processing.py:225 | The derivation loop adds the GDP per inhabitant to every row |
| Clean.DropDuplicatesKeys | data_analysis/data_processing.py:220-224 | Deduplication keeps the set of keys: no key disappears |
| Clean.DropDuplicatesDistinct | data_analysis/data_processing.py:220-224 | After deduplication, no two rows share a key |
| Clean.DropDuplicatesSubsequence | data_analysis/data_processing.py:220-224 | Deduplication only deletes rows: the kept rows are a subsequence of the input, in input order, and no rows are added |
| Clean.DropDuplicatesKeepsFirst | data_analysis/data_processing.py:223 | The first row of every key is kept (`keep='first'`) |
| Clean.DropDuplicatesOnlyFirst | data_analysis/data_processing.py:223 | Every kept row is the first input row with its key |
| Clean.DropDuplicatesAbsorbs | data_analysis/data_processing.py:220-224 | Appending rows whose keys were already seen leaves the result unchanged |
| Clean.CleanRows | data_analysis/data_processing.py:210-225 | Every cleaned row comes from a movie row of the merge; its GDP per inhabitant is GDP divided by population, or none when the population is zero |
| Clean.CleanKeepsOrder | data_analysis/data_processing.py:210-225 | The cleaned table is, in order, the list of all movie rows renamed and derived with some rows deleted |
| Clean.CleanKeys | data_analysis/data_processing.py:210-224 | The cleaned table has distinct keys and covers the key of every movie row |
| Clean.CleanDuplicatedInput | tests/test_data_processing.py:461-480 | Cleaning a frame concatenated with itself gives the same result as cleaning it once |
| Analysis.CountPositive | data_analysis/analysis.py:33 | A code's `value_counts` entry is positive iff some film has that code |
| Analysis.CountAppend | data_analysis/analysis.py:33 | Counts of a code add up over concatenated tables |
| Analysis.Valid | data_analysis/analysis.py:33-35 | A film is kept iff its country has at least `n` films in the input |
| Analysis.ValidCount | data_analysis/analysis.py:33-35 | A country keeps all its films if it has at least `n` of them, and none otherwise |
| Analysis.BeforeIsTotalPreorder | data_analysis/analysis.py:36-39 | The sort order (country name and code ascending, rating and votes descending) is total and transitive |
| Sorting.Sort | data_analysis/analysis.py:36-39 | Sorting is a permutation of its input |
| Sorting.SortSorted | data_analysis/analysis.py:36-39 | Under a total preorder, the sorted rows are in order |
| Analysis.HeadsCount | data_analysis/analysis.py:41 | `groupby(region).head(n)` keeps `min(n, count)` films of each country |
| Analysis.HeadsKeeps | data_analysis/analysis.py:41 | A film preceded by fewer than `n` films of its country is kept |
| Analysis.HeadsOnly | data_analysis/analysis.py:41 | Every kept film is preceded by fewer than `n` films of its country |
| Analysis.HeadsKeepOrder | data_analysis/analysis.py:41 | `head(n)` only deletes rows: the kept films are in table order |
| Analysis.HeadsSorted | data_analysis/analysis.py:41 | Taking heads preserves sortedness |
| Analysis.ChosenFromMovies | data_analysis/analysis.py:33-41 | Every chosen film is an input film of a country with at least `n` films |
| Analysis.ChosenCount | data_analysis/analysis.py:33-41 | Exactly `n` films are chosen for a country with at least `n` films, and none for any other |
| Analysis.ChosenAreBest | data_analysis/analysis.py:21-41 | A chosen film rates at least as well as any unchosen film of its country, and wins ties on votes |
| Analysis.DistinctKeys | data_analysis/analysis.py:42 | The group keys are the (country name, code) pairs of the rows, each listed once |
| Analysis.GroupRows | data_analysis/analysis.py:42 | A group holds exactly the rows having its key: every row in it has the key, every row of the table with the key is in it, and it is non-empty iff some row has the key |
| Analysis.GroupStatMean | data_analysis/analysis.py:43 | The group's average rating times its film count gives back the sum of its ratings |
| Analysis.GroupStatWithinRatings | data_analysis/analysis.py:43 | A group's average rating lies between any bounds that hold for every rating in the group (a mean of ratings in 0..10 stays in 0..10) |
| Analysis.Aggregate | data_analysis/analysis.py:42-50 | One record per distinct (name, code) key: mean rating, vote sum and film count of that key's rows |
| Analysis.AggregateCodes | data_analysis/analysis.py:42-46 | A country code appears in the aggregate iff some input film has it |
| Analysis.TopNPerCountry | data_analysis/analysis.py:21-51 | Every country in the result counts at least one and at most `n` of its top films |
| Analysis.TopNCountries | data_analysis/analysis.py:21-51 | A country appears in the result iff `n > 0` and it has at least `n` films |
| Analysis.TopNEmpty | data_analysis/analysis.py:21-51 | The result is empty iff `n == 0` or no country has `n` films |
| Analysis.TopNFilmCount | data_analysis/analysis.py:41-46 | Every result row counts exactly `n` films |
| Analysis.TopNAscending | data_analysis/analysis.py:42-46 | Result rows are strictly ascending by (country name, country code) |
| Analysis.VotesBreakTies | tests/test_analysis.py:75-95 | Of two films of one country with the same rating, `n = 1` chooses the one with more votes, and the record shows its rating and votes |
| Analysis.TopTen | data_analysis/analysis.py:18 | At most ten rows are shown: `min(10, number of countries)` |
| Analysis.TopTenBest | data_analysis/analysis.py:15-18 | The ten rows come from the aggregate, descend by mean rating, and no country left out has a higher mean than one shown |
| Analysis.Task1 | data_analysis/analysis.py:5-18 | One table per requested `n` (by default 10, 20, 50, 100, 200), in order: the ten best countries by mean rating of their top `n` films |

## Left out

- Column selection and missing-column `KeyError`s (the `try`/`except`/logging wrapper at data_analysis/data_processing.py:44-100, and the drops in `process_world_bank_data` and `clean`). Typed records always have their columns.
- Pandas dtype failures, such as a text join key or text GDP. Typed fields make them unrepresentable.
- Loading files, printing the tables (data_analysis/analysis.py:16-18) and logging. This is I/O.
- `Analysis.Task1`: returns the tables that task 1 prints, rather than printing them.
- Floating point: ratings, GDP and population are exact `real`s. Means are exact quotients.
- `Clean.DeriveRows`: when the population is zero, pandas yields `inf` or `NaN`. Both are modelled as `None`.
- `set_index('title_id')` (data_analysis/data_processing.py:226). The title id stays a field of each row. A frame index has no other effect on the values that are modelled.
- In-place updates and aliasing of the caller's frame (`inplace=True` on line 112). Each step takes its input as a value, so the mutation of the caller's frame is not modelled.
- `PyInt.ParseInt`: digits other than ASCII `0`-`9`, which Python's `int()` also accepts. The white space it strips is the full set that `str.isspace` accepts.
- Matching of null keys in merges. In pandas, NaN matches NaN, but here every merge key is a non-null field. The one exception is the title start year, and a population or GDP year is never null.
- `Analysis.TopNPerCountry` and its lemmas take `n` as a `nat`. `head` with a negative `n` is not modelled.
- The analysis reads columns `region`, `countryName`, `title`, `averageRating` and `numVotes`. `clean` names them `country_code`, `country_name` and so on. The model uses one record (`Tables.Unified`) for both, with the fields in the same roles (the analysis tests use `clean`'s names).
- `Analysis.TopTenBest` states only tie-independent facts. The single-column `sort_values` on data_analysis/analysis.py:15 is not stable, so the order among countries with equal means is not modelled. The model sorts stably.
- `Analysis.ChosenAreBest` requires `ConsistentNames`: every film of a country code carries the same country name. The grouping is by name first, so without it, films of one code but different names sort apart. With differing names, the ranking within one code is no longer global.
- `Analysis.TopNFilmCount` requires `ConsistentNames` for the same reason. Otherwise one code splits into several (name, code) groups, and each group counts only part of the `n` films.
- `Merge.MergeByLookup` requires unique keys on the right-hand tables. Duplicate keys multiply rows, and that case is covered by `Merge.MergeMembers`.
- Tasks 2 and 3 (impact metrics, ranks, hegemony, career progression). They are not part of this model.
- `Merge.MergeAppend`: its order claim holds for the inner-merge order of pandas 2.2 and later. Under earlier versions, which group an inner merge's rows by key, release order is not kept when one title has releases in both parts.

## Source details

- The year is `int(x[:5])` (data_analysis/data_processing.py:114), five characters: the four digits and the space after them.
- The sort at data_analysis/analysis.py:36-38 orders by country name and region before rating and votes. The docstring (data_analysis/analysis.py:23-24) speaks only of rating and votes. The two orders agree within one country.
