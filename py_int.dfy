/**
 * Python's `int(s)` on a string, base 10, as used by the World Bank reshape
 * to turn a year header such as "2000 [YR2000]" into 2000: surrounding
 * whitespace is stripped, one optional sign, then decimal digits in groups
 * separated by single underscores.
 */
module PyInt {
  import opened Common

  predicate IsDigit(c: char) { '0' <= c <= '9' }

  function DigitValue(c: char): (d: nat)
    requires IsDigit(c)
    ensures d < 10
  {
    (c as int) - ('0' as int)
  }

  function DigitChar(d: nat): (c: char)
    requires d < 10
    ensures IsDigit(c) && DigitValue(c) == d
  {
    (('0' as int) + d) as char
  }

  /** The characters `str.isspace()` accepts, which `int()` strips from both ends. */
  predicate IsSpace(c: char) {
    var k := c as int;
    (9 <= k <= 13) || (28 <= k <= 32) || k == 0x85 || k == 0xA0 || k == 0x1680
    || (0x2000 <= k <= 0x200A) || k == 0x2028 || k == 0x2029 || k == 0x202F
    || k == 0x205F || k == 0x3000
  }

  function TrimStart(s: string): (r: string)
    ensures r == [] || !IsSpace(r[0])
    ensures |r| <= |s| && r == s[|s| - |r|..]
  {
    if s != [] && IsSpace(s[0]) then TrimStart(s[1..]) else s
  }

  function TrimEnd(s: string): (r: string)
    ensures r == [] || !IsSpace(r[|r| - 1])
    ensures |r| <= |s| && r == s[..|r|]
  {
    if s != [] && IsSpace(s[|s| - 1]) then TrimEnd(s[..|s| - 1]) else s
  }

  function Strip(s: string): string {
    TrimEnd(TrimStart(s))
  }

  /** Digits, where an underscore may stand only between two digits. */
  predicate IsDigitGroups(b: string) {
    && |b| > 0
    && IsDigit(b[0])
    && forall i :: 0 <= i < |b| ==> GroupChar(b, i)
  }

  predicate GroupChar(b: string, i: nat)
    requires i < |b|
  {
    IsDigit(b[i]) || (b[i] == '_' && i + 1 < |b| && IsDigit(b[i + 1]))
  }

  predicate NotUnderscore(c: char) { c != '_' }

  lemma DigitGroupsChars(b: string, k: int)
    requires IsDigitGroups(b) && 0 <= k < |b|
    ensures IsDigit(b[k]) || b[k] == '_'
  {
    assert GroupChar(b, k);
  }

  lemma NotDigitGroupsAt(b: string, k: int)
    requires 0 <= k < |b| && !IsDigit(b[k]) && b[k] != '_'
    ensures !IsDigitGroups(b)
  {
    assert !GroupChar(b, k);
  }

  predicate AllDigits(ds: string) { forall i :: 0 <= i < |ds| ==> IsDigit(ds[i]) }

  /** The number a string of decimal digits denotes. */
  function DecimalValue(ds: string): nat
    requires AllDigits(ds)
  {
    if ds == [] then 0 else DecimalValue(ds[..|ds| - 1]) * 10 + DigitValue(ds[|ds| - 1])
  }

  function GroupsValue(b: string): nat
    requires IsDigitGroups(b)
  {
    var ds := Filter(b, NotUnderscore);
    assert AllDigits(ds) by {
      forall i | 0 <= i < |ds| ensures IsDigit(ds[i]) {
        assert ds[i] in b && NotUnderscore(ds[i]);
        var k :| 0 <= k < |b| && b[k] == ds[i];
        DigitGroupsChars(b, k);
      }
    }
    DecimalValue(ds)
  }

  /** `int(s)`: Some(value), or None where Python raises ValueError. */
  function ParseInt(s: string): Option<int> {
    var t := Strip(s);
    if |t| > 0 && (t[0] == '+' || t[0] == '-') then
      if IsDigitGroups(t[1..]) then
        var magnitude: int := GroupsValue(t[1..]);
        Some(if t[0] == '-' then -magnitude else magnitude)
      else None
    else if IsDigitGroups(t) then Some(GroupsValue(t))
    else None
  }

  /** The first five characters of a header, `x[:5]`. */
  function YearPrefix(header: string): (p: string)
    ensures |p| <= 5 && |p| <= |header| && p == header[..|p|]
    ensures |header| >= 5 ==> |p| == 5
  {
    if |header| < 5 then header else header[..5]
  }

  /** `int(x[:5])` of a year header. */
  function HeaderYear(header: string): Option<int> {
    ParseInt(YearPrefix(header))
  }

  /** The decimal spelling of a natural number, without leading zeros. */
  function ToDecimal(n: nat): (s: string)
    ensures |s| > 0 && AllDigits(s)
  {
    if n < 10 then [DigitChar(n)] else ToDecimal(n / 10) + [DigitChar(n % 10)]
  }

  lemma {:induction false} DecimalRoundTrip(n: nat)
    ensures DecimalValue(ToDecimal(n)) == n
  {
    if n >= 10 {
      DecimalRoundTrip(n / 10);
      var s := ToDecimal(n);
      assert s[..|s| - 1] == ToDecimal(n / 10);
    }
  }

  lemma {:induction false} FourDigitYear(n: nat)
    requires 1000 <= n <= 9999
    ensures |ToDecimal(n)| == 4
  {
    assert ToDecimal(n) == ToDecimal(n / 10) + [DigitChar(n % 10)];
    assert ToDecimal(n / 10) == ToDecimal(n / 100) + [DigitChar((n / 10) % 10)];
    assert ToDecimal(n / 100) == ToDecimal(n / 1000) + [DigitChar((n / 100) % 10)];
  }

  /** The four digits of a four-digit year, most significant first. */
  lemma FourDigitSpelling(n: nat)
    requires 1000 <= n <= 9999
    ensures ToDecimal(n) == [DigitChar(n / 1000), DigitChar(n / 100 % 10), DigitChar(n / 10 % 10), DigitChar(n % 10)]
  {
    assert n / 10 / 10 == n / 100;
    assert n / 100 / 10 == n / 1000;
    assert ToDecimal(n / 1000) == [DigitChar(n / 1000)];
    assert ToDecimal(n / 100) == ToDecimal(n / 1000) + [DigitChar(n / 100 % 10)];
    assert ToDecimal(n / 10) == ToDecimal(n / 100) + [DigitChar(n / 10 % 10)];
  }

  lemma DigitIsNotSpace(c: char)
    requires IsDigit(c)
    ensures !IsSpace(c)
  {
  }

  lemma StripDigitsThenSpace(ds: string)
    requires |ds| > 0 && AllDigits(ds)
    ensures Strip(ds + " ") == ds
  {
    var s := ds + " ";
    DigitIsNotSpace(s[0]);
    assert TrimStart(s) == s;
    assert s[..|s| - 1] == ds;
    DigitIsNotSpace(ds[|ds| - 1]);
    assert TrimEnd(s) == TrimEnd(ds) == ds;
  }

  lemma DigitsAreGroups(ds: string)
    requires |ds| > 0 && AllDigits(ds)
    ensures IsDigitGroups(ds) && GroupsValue(ds) == DecimalValue(ds)
  {
    assert forall i :: 0 <= i < |ds| ==> GroupChar(ds, i);
    FilterAll(ds, NotUnderscore);
  }

  /** A digit string followed by a space is read by `int()` as the number it denotes. */
  lemma ParseDigitsThenSpace(ds: string)
    requires |ds| > 0 && AllDigits(ds)
    ensures ParseInt(ds + " ") == Some(DecimalValue(ds))
  {
    StripDigitsThenSpace(ds);
    DigitsAreGroups(ds);
    assert !(ds[0] == '+' || ds[0] == '-') by { assert IsDigit(ds[0]); }
  }

  lemma StripUnpadded(s: string)
    requires |s| > 0 && !IsSpace(s[0]) && !IsSpace(s[|s| - 1])
    ensures Strip(s) == s
  {
    assert TrimStart(s) == s;
  }

  /** `int()` inverts `str()` on natural numbers: a number written in decimal reads back as itself. */
  lemma ParseIntInvertsDecimal(n: nat)
    ensures ParseInt(ToDecimal(n)) == Some(n)
  {
    var ds := ToDecimal(n);
    DigitIsNotSpace(ds[0]);
    DigitIsNotSpace(ds[|ds| - 1]);
    StripUnpadded(ds);
    DigitsAreGroups(ds);
    DecimalRoundTrip(n);
    assert !(ds[0] == '+' || ds[0] == '-') by { assert IsDigit(ds[0]); }
  }

  /**
   * A World Bank year header `"YYYY <anything>"` parses to the year YYYY:
   * its first five characters are the four digits and a space.
   */
  lemma WorldBankHeaderYear(year: nat, rest: string)
    requires 1000 <= year <= 9999
    ensures HeaderYear(ToDecimal(year) + " " + rest) == Some(year)
  {
    var h := ToDecimal(year) + " " + rest;
    FourDigitYear(year);
    assert YearPrefix(h) == ToDecimal(year) + " ";
    ParseDigitsThenSpace(ToDecimal(year));
    DecimalRoundTrip(year);
  }

  /** The headers used in the sample data: "2000 [YR2000]" becomes 2000, "2001 [YR2001]" 2001. */
  lemma SampleHeaderYears()
    ensures HeaderYear("2000 [YR2000]") == Some(2000)
    ensures HeaderYear("2001 [YR2001]") == Some(2001)
  {
    SampleHeaderYear2000();
    SampleHeaderYear2001();
  }

  lemma SampleHeaderYear2000()
    ensures HeaderYear("2000 [YR2000]") == Some(2000)
  {
    FourDigitSpelling(2000);
    assert ToDecimal(2000) == "2000" by {
      assert DigitChar(2) == '2' && DigitChar(0) == '0';
    }
    assert "2000 [YR2000]" == ToDecimal(2000) + " " + "[YR2000]";
    WorldBankHeaderYear(2000, "[YR2000]");
  }

  lemma SampleHeaderYear2001()
    ensures HeaderYear("2001 [YR2001]") == Some(2001)
  {
    FourDigitSpelling(2001);
    assert ToDecimal(2001) == "2001" by {
      assert DigitChar(2) == '2' && DigitChar(0) == '0' && DigitChar(1) == '1';
    }
    assert "2001 [YR2001]" == ToDecimal(2001) + " " + "[YR2001]";
    WorldBankHeaderYear(2001, "[YR2001]");
  }

  /**
   * Without the space after the year, `x[:5]` is the year and a bracket, as
   * in "2000[", which is not a number: the reshape raises on such a header.
   */
  lemma HeaderWithoutSpaceIsMalformed(year: nat, rest: string)
    requires 1000 <= year <= 9999
    ensures HeaderYear(ToDecimal(year) + ['['] + rest) == None
  {
    var d := ToDecimal(year);
    FourDigitYear(year);
    var p := d + ['['];
    assert YearPrefix(d + ['['] + rest) == p;
    DigitThenBracket(p);
  }

  /** A five-character prefix that starts with a digit and ends with a bracket is not a number. */
  lemma DigitThenBracket(p: string)
    requires |p| == 5 && IsDigit(p[0]) && p[4] == '['
    ensures ParseInt(p) == None
  {
    DigitIsNotSpace(p[0]);
    assert TrimStart(p) == p;
    assert !IsSpace(p[4]);
    assert TrimEnd(p) == p;
    NotDigitGroupsAt(p, 4);
  }
}
