/**
 * `process_world_bank_data`: reshapes a wide World Bank series table (one
 * column per year) into a long table of (Country Code, Year, value) rows.
 * The three metadata columns are dropped, the year columns are melted
 * column after column, each melted `Year` header is read as `int(x[:5])`,
 * and rows with a null country code or a null value are dropped.
 */
module WorldBank {
  import opened Common
  import opened Tables
  import opened PyInt

  /** Every row has a cell in column `j`. */
  ghost predicate HasColumn(rows: seq<WideRow>, j: nat) {
    forall i :: 0 <= i < |rows| ==> j < |rows[i].values|
  }

  /** A data frame is rectangular: every row has one cell per year column. */
  ghost predicate WellFormed(t: WideTable) {
    forall i :: 0 <= i < |t.rows| ==> |t.rows[i].values| == |t.yearHeaders|
  }

  /** A melted row: `Country Code`, the year column's header, the cell. */
  datatype MeltedRow = MeltedRow(countryCode: Option<string>, year: string, value: Option<real>)

  /** A melted row after its `Year` header has been converted to an integer. */
  datatype YearRow = YearRow(countryCode: Option<string>, year: int, value: Option<real>)

  /** `int()` raised ValueError on this header prefix. */
  datatype ReshapeError = MalformedYear(literal: string)

  // ---------------------------------------------------------------------------
  // The stages, as functions

  /** The melted rows of year column `j` (header `header`), in row order. */
  function MeltColumn(rows: seq<WideRow>, header: string, j: nat): seq<MeltedRow>
    requires HasColumn(rows, j)
  {
    if rows == [] then []
    else
      var last := rows[|rows| - 1];
      MeltColumn(rows[..|rows| - 1], header, j) + [MeltedRow(last.countryCode, header, last.values[j])]
  }

  /** The melted rows of the first `n` year columns: column-major, row order within a column. */
  function MeltPrefix(t: WideTable, n: nat): seq<MeltedRow>
    requires WellFormed(t) && n <= |t.yearHeaders|
  {
    if n == 0 then [] else MeltPrefix(t, n - 1) + MeltColumn(t.rows, t.yearHeaders[n - 1], n - 1)
  }

  /** `df.melt(id_vars=['Country Code'], var_name='Year')` after the metadata columns are dropped. */
  function Melt(t: WideTable): seq<MeltedRow>
    requires WellFormed(t)
  {
    MeltPrefix(t, |t.yearHeaders|)
  }

  /**
   * `df['Year'].map(read)`: converts every melted header with `read`, failing
   * at the first header it rejects.  The reshape passes `HeaderYear`, the
   * source's `lambda x: int(x[:5])`.
   */
  function ParseYears(m: seq<MeltedRow>, read: string -> Option<int>): Result<seq<YearRow>, ReshapeError> {
    if m == [] then Ok([])
    else
      match ParseYears(m[..|m| - 1], read)
      case Err(e) => Err(e)
      case Ok(p) =>
        var last := m[|m| - 1];
        match read(last.year)
        case None => Err(MalformedYear(YearPrefix(last.year)))
        case Some(y) => Ok(p + [YearRow(last.countryCode, y, last.value)])
  }

  /** `dropna(subset=['Country Code', value_name])`. */
  function DropMissing(y: seq<YearRow>): seq<EconRow> {
    if y == [] then []
    else
      var last := y[|y| - 1];
      DropMissing(y[..|y| - 1])
      + if last.countryCode.Some? && last.value.Some?
        then [EconRow(last.countryCode.value, last.year, last.value.value)] else []
  }

  /** What `process_world_bank_data` returns, or the error it raises. */
  function Reshape(t: WideTable): Result<seq<EconRow>, ReshapeError>
    requires WellFormed(t)
  {
    match ParseYears(Melt(t), HeaderYear)
    case Err(e) => Err(e)
    case Ok(y) => Ok(DropMissing(y))
  }

  // ---------------------------------------------------------------------------
  // The operation, step by step

  /**
   * `process_world_bank_data`: the melt, the year conversion and the dropna,
   * each a pass over the rows.
   */
  method ProcessWorldBankData(t: WideTable) returns (r: Result<seq<EconRow>, ReshapeError>)
    requires WellFormed(t)
    ensures r == Reshape(t)
  {
    var melted := MeltRows(t);
    var years := ConvertYears(melted);
    match years
    case Err(e) =>
      r := Err(e);
    case Ok(y) =>
      var rows := DropNulls(y);
      r := Ok(rows);
  }

  /** The melt: year column after year column, every row once per column. */
  method MeltRows(t: WideTable) returns (melted: seq<MeltedRow>)
    requires WellFormed(t)
    ensures melted == Melt(t)
  {
    melted := [];
    var j := 0;
    while j < |t.yearHeaders|
      invariant 0 <= j <= |t.yearHeaders|
      invariant melted == MeltPrefix(t, j)
    {
      var i := 0;
      while i < |t.rows|
        invariant 0 <= i <= |t.rows|
        invariant melted == MeltPrefix(t, j) + MeltColumn(t.rows[..i], t.yearHeaders[j], j)
      {
        assert t.rows[..i + 1][..i] == t.rows[..i];
        melted := melted + [MeltedRow(t.rows[i].countryCode, t.yearHeaders[j], t.rows[i].values[j])];
        i := i + 1;
      }
      assert t.rows[..i] == t.rows;
      j := j + 1;
    }
  }

  /** `Year` becomes `int(x[:5])` of the header, row by row; the first failure raises. */
  method ConvertYears(melted: seq<MeltedRow>) returns (r: Result<seq<YearRow>, ReshapeError>)
    ensures r == ParseYears(melted, HeaderYear)
  {
    var years: seq<YearRow> := [];
    var k := 0;
    while k < |melted|
      invariant 0 <= k <= |melted|
      invariant ParseYears(melted[..k], HeaderYear) == Ok(years)
    {
      assert melted[..k + 1][..k] == melted[..k];
      var y := HeaderYear(melted[k].year);
      if y.None? {
        ParseYearsErrorPersists(melted, HeaderYear, k + 1);
        return Err(MalformedYear(YearPrefix(melted[k].year)));
      }
      years := years + [YearRow(melted[k].countryCode, y.value, melted[k].value)];
      k := k + 1;
    }
    assert melted[..k] == melted;
    r := Ok(years);
  }

  /** `dropna(subset=['Country Code', value_name])`, row by row. */
  method DropNulls(years: seq<YearRow>) returns (rows: seq<EconRow>)
    ensures rows == DropMissing(years)
  {
    rows := [];
    var k := 0;
    while k < |years|
      invariant 0 <= k <= |years|
      invariant rows == DropMissing(years[..k])
    {
      assert years[..k + 1][..k] == years[..k];
      if years[k].countryCode.Some? && years[k].value.Some? {
        rows := rows + [EconRow(years[k].countryCode.value, years[k].year, years[k].value.value)];
      }
      k := k + 1;
    }
    assert years[..k] == years;
  }

  /** Once the year map has failed on a prefix, it fails with the same error on the whole column. */
  lemma {:induction false} ParseYearsErrorPersists(m: seq<MeltedRow>, read: string -> Option<int>, k: nat)
    requires k <= |m| && ParseYears(m[..k], read).Err?
    ensures ParseYears(m, read) == ParseYears(m[..k], read)
    decreases |m|
  {
    if k < |m| {
      var p := m[..|m| - 1];
      assert p[..k] == m[..k];
      ParseYearsErrorPersists(p, read, k);
    } else {
      assert m[..k] == m;
    }
  }

  // ---------------------------------------------------------------------------
  // A reference definition: one output row per (year column, row) cell that has
  // both a country code and a value, column by column, rows in order within a column

  function Cell(r: WideRow, j: nat, year: int): seq<EconRow>
    requires j < |r.values|
  {
    if r.countryCode.Some? && r.values[j].Some?
    then [EconRow(r.countryCode.value, year, r.values[j].value)] else []
  }

  function ColumnCells(rows: seq<WideRow>, j: nat, year: int): seq<EconRow>
    requires HasColumn(rows, j)
  {
    if rows == [] then [] else ColumnCells(rows[..|rows| - 1], j, year) + Cell(rows[|rows| - 1], j, year)
  }

  function ByYearColumn(t: WideTable, years: seq<int>, n: nat): seq<EconRow>
    requires WellFormed(t) && |years| == |t.yearHeaders| && n <= |years|
  {
    if n == 0 then [] else ByYearColumn(t, years, n - 1) + ColumnCells(t.rows, n - 1, years[n - 1])
  }

  /** `years` are what `read` makes of the headers. */
  ghost predicate HeaderYears(t: WideTable, years: seq<int>, read: string -> Option<int>) {
    |years| == |t.yearHeaders| && forall j :: 0 <= j < |years| ==> read(t.yearHeaders[j]) == Some(years[j])
  }

  lemma {:induction false} ParseYearsAppend(a: seq<MeltedRow>, b: seq<MeltedRow>, read: string -> Option<int>)
    requires ParseYears(a, read).Ok? && ParseYears(b, read).Ok?
    ensures ParseYears(a + b, read) == Ok(ParseYears(a, read).value + ParseYears(b, read).value)
    decreases |b|
  {
    if b == [] {
      assert a + b == a;
      assert ParseYears(a, read).value + [] == ParseYears(a, read).value;
    } else {
      var b' := b[..|b| - 1];
      assert (a + b)[..|a + b| - 1] == a + b';
      assert (a + b)[|a + b| - 1] == b[|b| - 1];
      assert ParseYears(b', read).Ok?;
      ParseYearsAppend(a, b', read);
      var pa := ParseYears(a, read).value;
      var pb' := ParseYears(b', read).value;
      var y := read(b[|b| - 1].year).value;
      var last := YearRow(b[|b| - 1].countryCode, y, b[|b| - 1].value);
      assert ParseYears(b, read) == Ok(pb' + [last]);
      assert ParseYears(a + b, read) == Ok((pa + pb') + [last]);
      assert (pa + pb') + [last] == pa + (pb' + [last]);
    }
  }

  lemma {:induction false} DropMissingAppend(a: seq<YearRow>, b: seq<YearRow>)
    ensures DropMissing(a + b) == DropMissing(a) + DropMissing(b)
    decreases |b|
  {
    if b == [] {
      assert a + b == a;
    } else {
      var b' := b[..|b| - 1];
      assert (a + b)[..|a + b| - 1] == a + b';
      assert (a + b)[|a + b| - 1] == b[|b| - 1];
      DropMissingAppend(a, b');
    }
  }

  /** One column: reading its header and dropping nulls gives that column's cells. */
  lemma {:induction false} ReshapeColumn(rows: seq<WideRow>, header: string, j: nat, year: int, read: string -> Option<int>)
    requires HasColumn(rows, j) && read(header) == Some(year)
    ensures ParseYears(MeltColumn(rows, header, j), read).Ok?
    ensures DropMissing(ParseYears(MeltColumn(rows, header, j), read).value) == ColumnCells(rows, j, year)
  {
    if rows != [] {
      var rows' := rows[..|rows| - 1];
      var last := rows[|rows| - 1];
      assert HasColumn(rows', j);
      ReshapeColumn(rows', header, j, year, read);
      var m := MeltColumn(rows, header, j);
      assert m[..|m| - 1] == MeltColumn(rows', header, j);
      var p := ParseYears(MeltColumn(rows', header, j), read).value;
      var y := YearRow(last.countryCode, year, last.values[j]);
      assert ParseYears(m, read) == Ok(p + [y]);
      assert (p + [y])[..|p + [y]| - 1] == p;
    }
  }

  lemma {:induction false} ReshapePrefix(t: WideTable, years: seq<int>, read: string -> Option<int>, n: nat)
    requires WellFormed(t) && HeaderYears(t, years, read) && n <= |years|
    ensures ParseYears(MeltPrefix(t, n), read).Ok?
    ensures DropMissing(ParseYears(MeltPrefix(t, n), read).value) == ByYearColumn(t, years, n)
  {
    if n > 0 {
      ReshapePrefix(t, years, read, n - 1);
      var a := MeltPrefix(t, n - 1);
      var b := MeltColumn(t.rows, t.yearHeaders[n - 1], n - 1);
      assert MeltPrefix(t, n) == a + b;
      ReshapeColumn(t.rows, t.yearHeaders[n - 1], n - 1, years[n - 1], read);
      ParseYearsAppend(a, b, read);
      var pa := ParseYears(a, read).value;
      var pb := ParseYears(b, read).value;
      DropMissingAppend(pa, pb);
      assert ParseYears(MeltPrefix(t, n), read) == Ok(pa + pb);
      assert ByYearColumn(t, years, n) == ByYearColumn(t, years, n - 1) + ColumnCells(t.rows, n - 1, years[n - 1]);
    }
  }

  /**
   * When every year header parses, the reshaped table is the cells with a
   * country code and a value, grouped by year column in header order and in
   * row order within a column (exactly one output row per such cell).
   */
  lemma ReshapeByYearColumn(t: WideTable, years: seq<int>)
    requires WellFormed(t) && HeaderYears(t, years, HeaderYear)
    ensures Reshape(t) == Ok(ByYearColumn(t, years, |years|))
  {
    ReshapePrefix(t, years, HeaderYear, |years|);
  }

  lemma {:induction false} MeltPrefixNoRows(t: WideTable, n: nat)
    requires WellFormed(t) && n <= |t.yearHeaders| && t.rows == []
    ensures MeltPrefix(t, n) == []
  {
    if n > 0 {
      MeltPrefixNoRows(t, n - 1);
    }
  }

  /** A table without rows melts to nothing, so no header is ever parsed and nothing fails. */
  lemma ReshapeNoRows(t: WideTable)
    requires WellFormed(t) && t.rows == []
    ensures Reshape(t) == Ok([])
  {
    MeltPrefixNoRows(t, |t.yearHeaders|);
  }

  // ---------------------------------------------------------------------------
  // The error case

  predicate Malformed(header: string) { HeaderYear(header).None? }

  lemma {:induction false} ParseYearsFails(m: seq<MeltedRow>, read: string -> Option<int>)
    ensures ParseYears(m, read).Err? <==> exists k :: 0 <= k < |m| && read(m[k].year).None?
    ensures ParseYears(m, read).Err? ==>
      exists k :: 0 <= k < |m| && read(m[k].year).None? && ParseYears(m, read).error == MalformedYear(YearPrefix(m[k].year))
  {
    if m != [] {
      var p := m[..|m| - 1];
      ParseYearsFails(p, read);
      if ParseYears(p, read).Err? {
        var k :| 0 <= k < |p| && read(p[k].year).None? && ParseYears(p, read).error == MalformedYear(YearPrefix(p[k].year));
        assert m[k] == p[k];
      } else {
        forall k | 0 <= k < |m| - 1 ensures read(m[k].year).Some? {
          assert m[k] == p[k];
        }
      }
    }
  }

  lemma {:induction false} MeltColumnLength(rows: seq<WideRow>, header: string, j: nat)
    requires HasColumn(rows, j)
    ensures |MeltColumn(rows, header, j)| == |rows|
  {
    if rows != [] {
      assert HasColumn(rows[..|rows| - 1], j);
      MeltColumnLength(rows[..|rows| - 1], header, j);
    }
  }

  /** Every melted row of column `j` carries that column's header. */
  lemma {:induction false} MeltColumnHeader(rows: seq<WideRow>, header: string, j: nat, k: nat)
    requires HasColumn(rows, j) && k < |rows|
    ensures |MeltColumn(rows, header, j)| == |rows| && MeltColumn(rows, header, j)[k].year == header
  {
    MeltColumnLength(rows, header, j);
    var rows' := rows[..|rows| - 1];
    assert HasColumn(rows', j);
    MeltColumnLength(rows', header, j);
    if k < |rows| - 1 {
      MeltColumnHeader(rows', header, j, k);
    }
  }

  /** Every melted row carries one of the year headers. */
  lemma {:induction false} MeltPrefixHeader(t: WideTable, n: nat, k: nat)
    requires WellFormed(t) && n <= |t.yearHeaders| && k < |MeltPrefix(t, n)|
    ensures exists j :: 0 <= j < n && MeltPrefix(t, n)[k].year == t.yearHeaders[j]
  {
    var a := MeltPrefix(t, n - 1);
    var b := MeltColumn(t.rows, t.yearHeaders[n - 1], n - 1);
    assert MeltPrefix(t, n) == a + b;
    MeltColumnLength(t.rows, t.yearHeaders[n - 1], n - 1);
    if k < |a| {
      MeltPrefixHeader(t, n - 1, k);
      var j :| 0 <= j < n - 1 && a[k].year == t.yearHeaders[j];
    } else {
      MeltColumnHeader(t.rows, t.yearHeaders[n - 1], n - 1, k - |a|);
    }
  }

  /** With at least one row, every year header occurs in the melted table. */
  lemma {:induction false} MeltPrefixHasHeader(t: WideTable, n: nat, j: nat)
    requires WellFormed(t) && n <= |t.yearHeaders| && j < n && |t.rows| > 0
    ensures exists k :: 0 <= k < |MeltPrefix(t, n)| && MeltPrefix(t, n)[k].year == t.yearHeaders[j]
  {
    var a := MeltPrefix(t, n - 1);
    var b := MeltColumn(t.rows, t.yearHeaders[n - 1], n - 1);
    assert MeltPrefix(t, n) == a + b;
    if j < n - 1 {
      MeltPrefixHasHeader(t, n - 1, j);
      var k :| 0 <= k < |a| && a[k].year == t.yearHeaders[j];
      assert (a + b)[k] == a[k];
    } else {
      MeltColumnLength(t.rows, t.yearHeaders[n - 1], n - 1);
      MeltColumnHeader(t.rows, t.yearHeaders[n - 1], n - 1, 0);
      assert (a + b)[|a|] == b[0];
    }
  }

  /** The melted table fails to convert exactly when it has rows and `read` rejects some year header. */
  lemma MeltFails(t: WideTable, read: string -> Option<int>)
    requires WellFormed(t)
    ensures ParseYears(Melt(t), read).Err? <==>
      |t.rows| > 0 && exists j :: 0 <= j < |t.yearHeaders| && read(t.yearHeaders[j]).None?
    ensures ParseYears(Melt(t), read).Err? ==>
      exists j :: 0 <= j < |t.yearHeaders| && read(t.yearHeaders[j]).None?
               && ParseYears(Melt(t), read).error == MalformedYear(YearPrefix(t.yearHeaders[j]))
  {
    var m := Melt(t);
    ParseYearsFails(m, read);
    if |t.rows| > 0 && exists j :: 0 <= j < |t.yearHeaders| && read(t.yearHeaders[j]).None? {
      var j :| 0 <= j < |t.yearHeaders| && read(t.yearHeaders[j]).None?;
      MeltPrefixHasHeader(t, |t.yearHeaders|, j);
    }
    if ParseYears(m, read).Err? {
      var k :| 0 <= k < |m| && read(m[k].year).None? && ParseYears(m, read).error == MalformedYear(YearPrefix(m[k].year));
      MeltPrefixHeader(t, |t.yearHeaders|, k);
      var j :| 0 <= j < |t.yearHeaders| && m[k].year == t.yearHeaders[j];
      assert read(t.yearHeaders[j]).None?;
      assert |t.rows| > 0 by {
        if |t.rows| == 0 { MeltPrefixNoRows(t, |t.yearHeaders|); }
      }
    }
  }

  /**
   * The reshape raises exactly when the table has at least one row and some
   * year header is not `int()`-readable in its first five characters; the
   * error carries the offending prefix of one of those headers.
   */
  lemma ReshapeFails(t: WideTable)
    requires WellFormed(t)
    ensures Reshape(t).Err? <==> |t.rows| > 0 && exists j :: 0 <= j < |t.yearHeaders| && Malformed(t.yearHeaders[j])
    ensures Reshape(t).Err? ==>
      exists j :: 0 <= j < |t.yearHeaders| && Malformed(t.yearHeaders[j])
               && Reshape(t).error == MalformedYear(YearPrefix(t.yearHeaders[j]))
  {
    MeltFails(t, HeaderYear);
  }

  // ---------------------------------------------------------------------------
  // Membership of the reference definition

  lemma {:induction false} ColumnCellsMembers(rows: seq<WideRow>, j: nat, year: int, e: EconRow)
    requires HasColumn(rows, j)
    ensures e in ColumnCells(rows, j, year) <==>
      e.year == year && exists i :: 0 <= i < |rows| && rows[i].countryCode == Some(e.countryCode) && rows[i].values[j] == Some(e.value)
  {
    if rows != [] {
      var rows' := rows[..|rows| - 1];
      assert HasColumn(rows', j);
      ColumnCellsMembers(rows', j, year, e);
      forall i | 0 <= i < |rows| - 1 ensures rows[i] == rows'[i] { }
    }
  }

  /**
   * An (alpha-3, year, value) row is in the reshaped table exactly when some
   * input row has that country code and, in the column of that year, that value.
   */
  lemma {:induction false} ByYearColumnMembers(t: WideTable, years: seq<int>, n: nat, e: EconRow)
    requires WellFormed(t) && |years| == |t.yearHeaders| && n <= |years|
    ensures e in ByYearColumn(t, years, n) <==>
      exists i, j :: 0 <= i < |t.rows| && 0 <= j < n && t.rows[i].countryCode == Some(e.countryCode)
                     && e.year == years[j] && t.rows[i].values[j] == Some(e.value)
  {
    if n > 0 {
      ByYearColumnMembers(t, years, n - 1, e);
      ColumnCellsMembers(t.rows, n - 1, years[n - 1], e);
    }
  }

  lemma ThreeRowCells(r0: WideRow, r1: WideRow, r2: WideRow, j: nat, year: int)
    requires j < |r0.values| && j < |r1.values| && j < |r2.values|
    ensures HasColumn([r0, r1, r2], j)
    ensures ColumnCells([r0, r1, r2], j, year) == Cell(r0, j, year) + Cell(r1, j, year) + Cell(r2, j, year)
  {
    assert [r0, r1, r2][..2] == [r0, r1];
    assert [r0, r1][..1] == [r0];
    assert [r0][..0] == [];
    assert ColumnCells([r0], j, year) == Cell(r0, j, year);
    assert ColumnCells([r0, r1], j, year) == Cell(r0, j, year) + Cell(r1, j, year);
  }

  /** The sample population table with the USA cell for 2000 missing. */
  lemma SampleWithMissingValue()
    ensures
      var t := WideTable(["2000 [YR2000]", "2001 [YR2001]"], [
        WideRow(Some("USA"), "Population, total", "SP.POP.TOTL", "United States", [None, Some(305000000.0)]),
        WideRow(Some("GBR"), "Population, total", "SP.POP.TOTL", "United Kingdom", [Some(60000000.0), Some(60500000.0)]),
        WideRow(Some("FRA"), "Population, total", "SP.POP.TOTL", "France", [Some(65000000.0), Some(65500000.0)])]);
      WellFormed(t) && Reshape(t) == Ok([
        EconRow("GBR", 2000, 60000000.0), EconRow("FRA", 2000, 65000000.0),
        EconRow("USA", 2001, 305000000.0), EconRow("GBR", 2001, 60500000.0), EconRow("FRA", 2001, 65500000.0)])
  {
    SampleHeaderYears();
    SampleReshape("2000 [YR2000]", "2001 [YR2001]",
      WideRow(Some("USA"), "Population, total", "SP.POP.TOTL", "United States", [None, Some(305000000.0)]),
      WideRow(Some("GBR"), "Population, total", "SP.POP.TOTL", "United Kingdom", [Some(60000000.0), Some(60500000.0)]),
      WideRow(Some("FRA"), "Population, total", "SP.POP.TOTL", "France", [Some(65000000.0), Some(65500000.0)]));
  }

  /** The sample, with the headers and rows as parameters so that the concrete table is not unfolded. */
  lemma SampleReshape(h0: string, h1: string, r0: WideRow, r1: WideRow, r2: WideRow)
    requires HeaderYear(h0) == Some(2000) && HeaderYear(h1) == Some(2001)
    requires r0.countryCode == Some("USA") && r0.values == [None, Some(305000000.0)]
    requires r1.countryCode == Some("GBR") && r1.values == [Some(60000000.0), Some(60500000.0)]
    requires r2.countryCode == Some("FRA") && r2.values == [Some(65000000.0), Some(65500000.0)]
    ensures WellFormed(WideTable([h0, h1], [r0, r1, r2]))
    ensures Reshape(WideTable([h0, h1], [r0, r1, r2])) == Ok([
        EconRow("GBR", 2000, 60000000.0), EconRow("FRA", 2000, 65000000.0),
        EconRow("USA", 2001, 305000000.0), EconRow("GBR", 2001, 60500000.0), EconRow("FRA", 2001, 65500000.0)])
  {
    var t := WideTable([h0, h1], [r0, r1, r2]);
    SampleColumns(h0, h1, r0, r1, r2);
    assert HeaderYears(t, [2000, 2001], HeaderYear) by {
      forall j | 0 <= j < 2 ensures HeaderYear(t.yearHeaders[j]) == Some([2000, 2001][j]) {
        if j == 0 { assert t.yearHeaders[j] == h0; } else { assert t.yearHeaders[j] == h1; }
      }
    }
    ReshapeByYearColumn(t, [2000, 2001]);
  }

  lemma SampleColumns(h0: string, h1: string, r0: WideRow, r1: WideRow, r2: WideRow)
    requires r0.countryCode == Some("USA") && r0.values == [None, Some(305000000.0)]
    requires r1.countryCode == Some("GBR") && r1.values == [Some(60000000.0), Some(60500000.0)]
    requires r2.countryCode == Some("FRA") && r2.values == [Some(65000000.0), Some(65500000.0)]
    ensures WellFormed(WideTable([h0, h1], [r0, r1, r2]))
    ensures ByYearColumn(WideTable([h0, h1], [r0, r1, r2]), [2000, 2001], 2) == [
        EconRow("GBR", 2000, 60000000.0), EconRow("FRA", 2000, 65000000.0),
        EconRow("USA", 2001, 305000000.0), EconRow("GBR", 2001, 60500000.0), EconRow("FRA", 2001, 65500000.0)]
  {
    var t := WideTable([h0, h1], [r0, r1, r2]);
    assert WellFormed(t) by {
      forall i | 0 <= i < |t.rows| ensures |t.rows[i].values| == 2 {
        assert t.rows[i] == r0 || t.rows[i] == r1 || t.rows[i] == r2;
      }
    }
    ThreeRowCells(r0, r1, r2, 0, 2000);
    ThreeRowCells(r0, r1, r2, 1, 2001);
    assert ByYearColumn(t, [2000, 2001], 1) == ByYearColumn(t, [2000, 2001], 0) + ColumnCells(t.rows, 0, 2000);
    assert ByYearColumn(t, [2000, 2001], 2) == ByYearColumn(t, [2000, 2001], 1) + ColumnCells(t.rows, 1, 2001);
    assert ByYearColumn(t, [2000, 2001], 0) == [];
    assert Cell(r0, 0, 2000) == [];
  }
}
