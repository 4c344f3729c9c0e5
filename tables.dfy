/**
 * The rows of the tables the pipeline reads, joins and produces.  A pandas
 * data frame becomes a `seq` of one of these records; a column that may be
 * null/NaN becomes an `Option`.  Only the columns the core keeps after its
 * column selection are present.
 */
module Tables {
  import opened Common

  /** A World Bank series row in its wide shape: one value cell per year column. */
  datatype WideRow = WideRow(
    countryCode: Option<string>,
    seriesName: string,
    seriesCode: string,
    countryName: string,
    values: seq<Option<real>>)

  /** A wide World Bank table: the year column headers (e.g. "2000 [YR2000]") and the rows. */
  datatype WideTable = WideTable(yearHeaders: seq<string>, rows: seq<WideRow>)

  /** A row of a reshaped (long) population or GDP table: `Country Code`, `Year`, value. */
  datatype EconRow = EconRow(countryCode: string, year: int, value: real)

  /** title.basics: `tconst`, `titleType`, `primaryTitle`, `startYear` (may be NaN). */
  datatype Basics = Basics(tconst: string, titleType: string, primaryTitle: string, startYear: Option<int>)

  /** title.ratings: `tconst`, `averageRating`, `numVotes`. */
  datatype Rating = Rating(tconst: string, averageRating: real, numVotes: int)

  /** title.akas as selected: `titleId`, `region` (may be null). */
  datatype RawRelease = RawRelease(titleId: string, region: Option<string>)

  /** title.akas after the rows with a null region are dropped. */
  datatype Release = Release(titleId: string, region: string)

  /** title.crew without `writers`: `tconst`, `directors`. */
  datatype Crew = Crew(tconst: string, directors: string)

  /** name.basics: `nconst`, `primaryName`. */
  datatype Person = Person(nconst: string, primaryName: string)

  /** The country code table: `alpha-2`, `alpha-3`, `name`. */
  datatype Country = Country(alpha2: string, alpha3: string, name: string)

  /**
   * A row of the merged frame, one field per column in merge order
   * (`Country Code_x`/`Year_x` come from population, `..._y` from GDP).
   */
  datatype MergedRow = MergedRow(
    titleId: string, region: string,
    tconst: string, titleType: string, primaryTitle: string, startYear: Option<int>,
    averageRating: real, numVotes: int,
    directors: string,
    nconst: string, primaryName: string,
    alpha2: string, alpha3: string, name: string,
    popCode: string, popYear: int, population: real,
    gdpCode: string, gdpYear: int, gdp: real)

  /** A merged row after the scaffold columns are dropped and the rest renamed. */
  datatype Renamed = Renamed(
    titleId: string, countryCode: string, year: int, title: string, countryName: string,
    averageRating: real, numOfVotes: int, directorName: string, directorId: string,
    population: real, gdp: real)

  /**
   * A row of the unified table that `clean` returns and the analyses read.
   * `gdpPerPopulation` is None where pandas would produce inf or NaN (zero population).
   */
  datatype Unified = Unified(
    titleId: string, countryCode: string, year: int, title: string, countryName: string,
    averageRating: real, numOfVotes: int, directorName: string, directorId: string,
    population: real, gdp: real, gdpPerPopulation: Option<real>)
}
