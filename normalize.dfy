/** The string handling of the two reconcilers: the blank-value filter, the
    BLS period-to-date mapping and the metals timestamp truncation. */
module Normalize {
  import opened Payload

  /** The characters Python's `str.isspace()` accepts, which are exactly the
      ones `str.strip()` with no argument removes. */
  predicate IsWhitespace(c: char) {
    || c == ' ' || c == '\t' || c == '\n' || c == '\r' || c == '\U{B}' || c == '\U{C}'
    || ('\U{1C}' <= c <= '\U{1F}')
    || c == '\U{85}' || c == '\U{A0}' || c == '\U{1680}'
    || ('\U{2000}' <= c <= '\U{200A}')
    || c == '\U{2028}' || c == '\U{2029}' || c == '\U{202F}' || c == '\U{205F}' || c == '\U{3000}'
  }

  predicate AllWhitespace(s: string) {
    forall i :: 0 <= i < |s| ==> IsWhitespace(s[i])
  }

  /** The index of the first character at or after `i` that is not
      whitespace, or `|s|`. */
  function SkipWhitespace(s: string, i: nat): (k: nat)
    requires i <= |s|
    ensures i <= k <= |s|
    ensures forall j :: i <= j < k ==> IsWhitespace(s[j])
    ensures k < |s| ==> !IsWhitespace(s[k])
    decreases |s| - i
  {
    if i == |s| || !IsWhitespace(s[i]) then i else SkipWhitespace(s, i + 1)
  }

  /** `s.lstrip()`: drops the leading whitespace and nothing else. */
  function TrimStart(s: string): (r: string)
    ensures |r| <= |s| && r == s[|s| - |r|..]
    ensures AllWhitespace(s[..|s| - |r|])
    ensures r == [] || !IsWhitespace(r[0])
  {
    var k := SkipWhitespace(s, 0);
    assert forall j :: 0 <= j < k ==> s[..k][j] == s[j];
    s[k..]
  }

  /** `s.rstrip()`: drops the trailing whitespace and nothing else. */
  function TrimEnd(s: string): (r: string)
    ensures |r| <= |s| && r == s[..|r|]
    ensures AllWhitespace(s[|r|..])
    ensures r == [] || !IsWhitespace(r[|r| - 1])
  {
    if s != [] && IsWhitespace(s[|s| - 1]) then TrimEnd(s[..|s| - 1]) else s
  }

  /** `s.strip()` with no argument. */
  function Strip(s: string): (r: string) {
    TrimEnd(TrimStart(s))
  }

  /** Stripping leaves nothing exactly when the string is whitespace only. */
  lemma StripEmptyIffAllWhitespace(s: string)
    ensures Strip(s) == [] <==> AllWhitespace(s)
  {
    var u := TrimStart(s);
    var k := |s| - |u|;
    if Strip(s) == [] {
      assert AllWhitespace(u[0..]);
      assert u[0..] == u;
      assert u == [];
      assert s[..k] == s;
    }
    if AllWhitespace(s) {
      AllWhitespaceTrimsAway(s);
    }
  }

  /** A string of whitespace only left-strips to nothing. */
  lemma AllWhitespaceTrimsAway(s: string)
    requires AllWhitespace(s)
    ensures TrimStart(s) == []
  {
    var k := SkipWhitespace(s, 0);
    assert k == |s|;
  }

  /** The filter `not point.get('value') or point['value'].strip() == ''`
      as written: a missing or null value, the empty string, or a string
      that strips to nothing. */
  predicate StripsToNothing(value: Option<string>) {
    value.None? || value.value == "" || Strip(value.value) == ""
  }

  /** A blank value: missing, or holding no character other than
      whitespace (the empty string included). */
  predicate IsBlankValue(value: Option<string>) {
    value.None? || AllWhitespace(value.value)
  }

  /** The filter as written skips exactly the blank values. */
  lemma BlankIffNoContent(value: Option<string>)
    ensures StripsToNothing(value) <==> IsBlankValue(value)
  {
    if value.Some? {
      StripEmptyIffAllWhitespace(value.value);
    }
  }

  predicate StartsWithM(period: string) {
    |period| > 0 && period[0] == 'M'
  }

  /** `point['period'][1:] if point['period'].startswith('M') else '01'`. */
  function Month(period: string): (r: string) {
    if StartsWithM(period) then period[1..] else "01"
  }

  /** `f"{point['year']}-{month}-01"`. */
  function BlsDate(year: string, period: string): (r: string) {
    year + "-" + Month(period) + "-01"
  }

  /** The month of an `M` code is the code without its `M`, verbatim: putting
      the `M` back gives the code again. Any other code reads as January. */
  lemma MonthOfPeriod(period: string)
    ensures StartsWithM(period) ==> "M" + Month(period) == period
    ensures !StartsWithM(period) ==> Month(period) == "01"
  {
    if StartsWithM(period) {
      assert period == [period[0]] + period[1..];
    }
  }

  /** The date is the year, a dash, the month, and the fixed day "-01": each
      part can be read back from the date. */
  lemma BlsDateParts(year: string, period: string)
    ensures var d := BlsDate(year, period);
      && |d| == |year| + |Month(period)| + 4
      && d[..|year|] == year
      && d[|year|] == '-'
      && d[|year| + 1..|d| - 3] == Month(period)
      && d[|d| - 3..] == "-01"
  {
    var d := BlsDate(year, period);
    var m := Month(period);
    assert d == year + (['-'] + m + "-01");
    assert d[|year| + 1..] == m + "-01";
    assert d[|year| + 1..|d| - 3] == (m + "-01")[..|m|];
  }

  /** Two points of the same year fall on the same date exactly when their
      months agree, whatever their period codes. */
  lemma BlsDateSameYear(year: string, period1: string, period2: string)
    ensures BlsDate(year, period1) == BlsDate(year, period2) <==> Month(period1) == Month(period2)
  {
    if BlsDate(year, period1) == BlsDate(year, period2) {
      BlsDateParts(year, period1);
      BlsDateParts(year, period2);
    }
  }

  /** The index of the first `T` in `s` at or after `i`, or `|s|`. */
  function FirstT(s: string, i: nat): (k: nat)
    requires i <= |s|
    ensures i <= k <= |s|
    ensures k < |s| ==> s[k] == 'T'
    ensures forall j :: i <= j < k ==> s[j] != 'T'
    decreases |s| - i
  {
    if i == |s| || s[i] == 'T' then i else FirstT(s, i + 1)
  }

  /** `timestamp.split('T')[0]`: everything before the first `T`, or the
      whole string when it has none. */
  function DatePart(timestamp: string): (d: string)
    ensures d <= timestamp
    ensures 'T' !in d
    ensures d == timestamp || timestamp[|d|] == 'T'
  {
    var k := FirstT(timestamp, 0);
    assert forall j :: 0 <= j < k ==> timestamp[..k][j] == timestamp[j];
    timestamp[..k]
  }

  /** The three properties of DatePart's contract determine it. */
  lemma DatePartUnique(timestamp: string, d: string)
    requires d <= timestamp && 'T' !in d
    requires d == timestamp || timestamp[|d|] == 'T'
    ensures DatePart(timestamp) == d
  {
    var e := DatePart(timestamp);
    assert forall i :: 0 <= i < |d| ==> timestamp[i] == d[i] != 'T';
    assert forall i :: 0 <= i < |e| ==> timestamp[i] == e[i] != 'T';
    assert |e| == |d|;
    assert e == timestamp[..|e|] && d == timestamp[..|d|];
  }

  /** An ISO-8601 timestamp `day + "T" + time` yields its day. */
  lemma DatePartOfIsoTimestamp(day: string, time: string)
    requires 'T' !in day
    ensures DatePart(day + "T" + time) == day
  {
    var ts := day + "T" + time;
    assert ts[..|day|] == day;
    assert ts[|day|] == 'T';
    DatePartUnique(ts, day);
  }
}
