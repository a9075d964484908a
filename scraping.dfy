/**
 * Metadata of a race results page (`get_metadata` in scraping.py). The
 * parts of the page that the HTML parser selects, the JSON download link and
 * the text of the results title, are given as inputs together with the raw
 * page text; what remains is string work on them.
 */
module Scraping {
  import opened Wrappers
  import opened Frames
  import opened Text

  // ---------------------------------------------------------------- matching helpers

  /** Every character of `s[lo..hi]` satisfies `p`. */
  predicate AllIn(s: string, lo: int, hi: int, p: char -> bool)
  {
    0 <= lo <= hi <= |s| && forall k :: lo <= k < hi ==> p(s[k])
  }

  /**
   * The first position in `from..last` where `matchAt` finds a match, with
   * that match: the scan of `re.search` over start positions.
   */
  function FirstMatch<M>(matchAt: nat -> Option<M>, from: nat, last: nat): (r: Option<(nat, M)>)
    ensures r.Some? ==> from <= r.value.0 <= last && matchAt(r.value.0) == Some(r.value.1)
    ensures r.Some? ==> forall j :: from <= j < r.value.0 ==> matchAt(j).None?
    ensures r.None? ==> forall j :: from <= j <= last ==> matchAt(j).None?
    decreases last - from
  {
    if from > last then None
    else match matchAt(from)
      case Some(m) => Some((from, m))
      case None => FirstMatch(matchAt, from + 1, last)
  }

  // ---------------------------------------------------------------- the date pattern

  /**
   * A match of `([A-Za-z]{3})\s+(\d{1,2})\s+(\d{4})`: the month group is
   * `s[start..start + 3]`, the day group `s[dayStart..dayEnd]`, the year
   * group `s[yearStart..end]`.
   */
  datatype DateMatch = DateMatch(start: nat, dayStart: nat, dayEnd: nat, yearStart: nat, end: nat)

  /** `m` describes a substring of `s` that the date pattern matches. */
  ghost predicate IsDateMatch(s: string, m: DateMatch)
  {
    && m.start + 3 < m.dayStart < m.dayEnd <= m.dayStart + 2
    && m.dayEnd < m.yearStart && m.end == m.yearStart + 4 && m.end <= |s|
    && AllIn(s, m.start, m.start + 3, IsLetter)
    && AllIn(s, m.start + 3, m.dayStart, IsSpace)
    && AllIn(s, m.dayStart, m.dayEnd, IsDigit)
    && AllIn(s, m.dayEnd, m.yearStart, IsSpace)
    && AllIn(s, m.yearStart, m.end, IsDigit)
  }

  /**
   * The regular-expression engine's attempt at position `i`. Each `\s+`
   * and `\d{1,2}` takes the longest run it can; giving characters back
   * never helps, because the next item of the pattern cannot match them.
   */
  function MatchDateAt(s: string, i: nat): (r: Option<DateMatch>)
    ensures r.Some? ==> r.value.start == i && IsDateMatch(s, r.value)
  {
    if i + 3 <= |s| && AllIn(s, i, i + 3, IsLetter) then
      var a := RunEnd(s, i + 3, IsSpace);
      var b := RunEnd(s, a, IsDigit);
      var c := RunEnd(s, b, IsSpace);
      if i + 3 < a < b <= a + 2 && b < c && c + 4 <= |s| && AllIn(s, c, c + 4, IsDigit) then
        Some(DateMatch(i, a, b, c, c + 4))
      else None
    else None
  }

  /** The attempt at a position finds every match that starts there. */
  lemma MatchDateComplete(s: string, m: DateMatch)
    requires IsDateMatch(s, m)
    ensures MatchDateAt(s, m.start) == Some(m)
  {
    RunEndAt(s, m.start + 3, IsSpace, m.dayStart);
    RunEndAt(s, m.dayStart, IsDigit, m.dayEnd);
    RunEndAt(s, m.dayEnd, IsSpace, m.yearStart);
  }

  /**
   * `re.search` with the date pattern: the leftmost match in `s`, or none
   * when the pattern matches nowhere.
   */
  function SearchDate(s: string): (r: Option<DateMatch>)
    ensures r.Some? ==> IsDateMatch(s, r.value)
  {
    var found := FirstMatch(j => MatchDateAt(s, j), 0, |s|);
    if found.Some? then Some(found.value.1) else None
  }

  /**
   * The search finds the leftmost match of the date pattern, and finds none
   * exactly when the pattern matches nowhere.
   */
  lemma SearchDateSpec(s: string)
    ensures SearchDate(s).Some? ==> forall m :: IsDateMatch(s, m) ==> SearchDate(s).value.start <= m.start
    ensures SearchDate(s).None? <==> forall m :: !IsDateMatch(s, m)
  {
    var found := FirstMatch(j => MatchDateAt(s, j), 0, |s|);
    forall m | IsDateMatch(s, m)
      ensures found.Some? && found.value.0 <= m.start
    {
      MatchDateComplete(s, m);
      assert (j => MatchDateAt(s, j))(m.start).Some?;
    }
  }

  // ---------------------------------------------------------------- strptime('%b %d %Y')

  /** A calendar date, as `datetime` holds it. */
  datatype Date = Date(year: int, month: int, day: int)

  /** Month abbreviations of `%b` in the C locale, lower-cased; `%b` ignores case. */
  const MonthAbbreviations: seq<string> :=
    ["jan", "feb", "mar", "apr", "may", "jun", "jul", "aug", "sep", "oct", "nov", "dec"]

  predicate IsLeapYear(year: int)
  {
    year % 4 == 0 && (year % 100 != 0 || year % 400 == 0)
  }

  function DaysInMonth(year: int, month: int): int
    requires 1 <= month <= 12
  {
    if month == 2 then (if IsLeapYear(year) then 29 else 28)
    else if month in {4, 6, 9, 11} then 30
    else 31
  }

  /** A date `datetime` accepts. */
  predicate ValidDate(d: Date)
  {
    1 <= d.year <= 9999 && 1 <= d.month <= 12 && 1 <= d.day <= DaysInMonth(d.year, d.month)
  }

  /** The value of a string of decimal digits. */
  function DigitsValue(s: string): nat
  {
    if s == [] then 0
    else DigitsValue(s[..|s| - 1]) * 10 + (if IsDigit(s[|s| - 1]) then s[|s| - 1] as int - '0' as int else 0)
  }

  /** The month whose abbreviation `%b` reads in `name`, if any. */
  function MonthNumber(name: string): (r: Option<int>)
    ensures r.Some? ==> 1 <= r.value <= 12 && MonthAbbreviations[r.value - 1] == Lower(name)
    ensures r.None? ==> Lower(name) !in MonthAbbreviations
  {
    var lower := Lower(name);
    if lower in MonthAbbreviations then
      var k :| 0 <= k < |MonthAbbreviations| && MonthAbbreviations[k] == lower;
      Some(k + 1)
    else None
  }

  /** `d` is the date the three groups of a date match spell. */
  predicate Spells(d: Date, month: string, day: string, year: string)
  {
    1 <= d.month <= 12 && MonthAbbreviations[d.month - 1] == Lower(month)
    && d.day == DigitsValue(day) && d.year == DigitsValue(year)
  }

  /**
   * `datetime.strptime(text, '%b %d %Y')` on the groups of a date match: the
   * valid date they spell, or none when no valid date spells them (an unknown
   * month, day 0 or past the month's end, year 0).
   */
  function ParseDate(month: string, day: string, year: string): (r: Option<Date>)
    ensures r.Some? ==> ValidDate(r.value) && Spells(r.value, month, day, year)
  {
    match MonthNumber(month)
    case None => None
    case Some(mo) =>
      var d := Date(DigitsValue(year), mo, DigitsValue(day));
      if ValidDate(d) then Some(d) else None
  }

  /** `strptime` fails only when no valid calendar date is spelled by the three groups. */
  lemma ParseDateComplete(month: string, day: string, year: string)
    ensures ParseDate(month, day, year).None? <==> forall d :: ValidDate(d) ==> !Spells(d, month, day, year)
  {
    if exists d :: ValidDate(d) && Spells(d, month, day, year) {
      var e :| ValidDate(e) && Spells(e, month, day, year);
      assert Lower(month) == MonthAbbreviations[e.month - 1];
      var mo := MonthNumber(month).value;
      MonthAbbreviationsDistinct(e.month - 1, mo - 1);
      assert ParseDate(month, day, year) == Some(e);
    }
  }

  /** The ASCII digit for `n`. */
  function DigitChar(n: int): char
    requires 0 <= n <= 9
  {
    ('0' as int + n) as char
  }

  /** `%d`: the day as two digits. */
  function TwoDigits(n: int): string
    requires 0 <= n <= 99
  {
    [DigitChar(n / 10), DigitChar(n % 10)]
  }

  /** `%Y`: the year as four digits. */
  function FourDigits(n: int): string
    requires 0 <= n <= 9999
  {
    TwoDigits(n / 100) + TwoDigits(n % 100)
  }

  /** The upper-case ASCII letter for a lower-case one. */
  function UpperChar(c: char): char
  {
    if 'a' <= c <= 'z' then (c as int - 32) as char else c
  }

  /** A date as `strftime('%b %d %Y')` prints it in the C locale, such as `Oct 03 2020`. */
  function FormatDate(d: Date): string
    requires ValidDate(d)
  {
    var abbreviation := MonthAbbreviations[d.month - 1];
    [UpperChar(abbreviation[0])] + abbreviation[1..] + " " + TwoDigits(d.day) + " " + FourDigits(d.year)
  }

  /** Appending a digit shifts the value by one decimal place. */
  lemma DigitsValueAppend(s: string, n: int)
    requires 0 <= n <= 9
    ensures DigitsValue(s + [DigitChar(n)]) == DigitsValue(s) * 10 + n
  {
    assert (s + [DigitChar(n)])[..|s|] == s;
  }

  /** Two digits read back as the number they print. */
  lemma TwoDigitsValue(n: int)
    requires 0 <= n <= 99
    ensures DigitsValue(TwoDigits(n)) == n
  {
    DigitsValueAppend([], n / 10);
    DigitsValueAppend([DigitChar(n / 10)], n % 10);
    assert TwoDigits(n) == [DigitChar(n / 10)] + [DigitChar(n % 10)];
  }

  /** Four digits read back as the number they print. */
  lemma FourDigitsValue(n: int)
    requires 0 <= n <= 9999
    ensures DigitsValue(FourDigits(n)) == n
  {
    var high, low := n / 100, n % 100;
    var s := TwoDigits(high);
    DigitsValueAppend(s, low / 10);
    DigitsValueAppend(s + [DigitChar(low / 10)], low % 10);
    assert FourDigits(n) == s + [DigitChar(low / 10)] + [DigitChar(low % 10)];
    TwoDigitsValue(high);
  }

  /** A printed date, character by character: three letters, a space, two digits, a space, four digits. */
  lemma FormatDateLayout(d: Date)
    requires ValidDate(d)
    ensures |MonthAbbreviations[d.month - 1]| == 3 && |TwoDigits(d.day)| == 2 && |FourDigits(d.year)| == 4
    ensures var abbreviation, day, year := MonthAbbreviations[d.month - 1], TwoDigits(d.day), FourDigits(d.year);
      FormatDate(d) == [UpperChar(abbreviation[0]), abbreviation[1], abbreviation[2], ' ',
                        day[0], day[1], ' ', year[0], year[1], year[2], year[3]]
  {
  }

  /** A printed date is matched by the date pattern as a whole, with its three parts as the groups. */
  lemma FormattedDateMatches(d: Date)
    requires ValidDate(d)
    ensures |FormatDate(d)| == 11
    ensures IsDateMatch(FormatDate(d), DateMatch(0, 4, 6, 7, 11))
    ensures Lower(FormatDate(d)[0..3]) == MonthAbbreviations[d.month - 1]
    ensures FormatDate(d)[4..6] == TwoDigits(d.day)
    ensures FormatDate(d)[7..11] == FourDigits(d.year)
  {
    FormatDateLayout(d);
    var s := FormatDate(d);
    var abbreviation := MonthAbbreviations[d.month - 1];
    assert 'a' <= abbreviation[0] <= 'z' && 'a' <= abbreviation[1] <= 'z' && 'a' <= abbreviation[2] <= 'z';
    assert s[0..3] == [UpperChar(abbreviation[0]), abbreviation[1], abbreviation[2]];
    assert Lower(s[0..3]) == abbreviation;
  }

  /** The twelve abbreviations are distinct. */
  lemma MonthAbbreviationsDistinct(i: int, j: int)
    requires 0 <= i < 12 && 0 <= j < 12
    requires MonthAbbreviations[i] == MonthAbbreviations[j]
    ensures i == j
  {
  }

  /**
   * A date printed the way results pages print it is read back as the same
   * date: the date pattern finds it at the start and `strptime` accepts it.
   */
  lemma DateRoundTrip(d: Date)
    requires ValidDate(d)
    ensures DateOf(FormatDate(d)) == Some(d)
  {
    var s := FormatDate(d);
    FormattedDateMatches(d);
    var m := DateMatch(0, 4, 6, 7, 11);
    SearchDateSpec(s);
    var found := SearchDate(s).value;
    MatchDateComplete(s, m);
    MatchDateComplete(s, found);
    assert found == m;
    var month, day, year := s[0..3], s[4..6], s[7..11];
    TwoDigitsValue(d.day);
    FourDigitsValue(d.year);
    assert Spells(d, month, day, year);
    ParseDateComplete(month, day, year);
    var parsed := ParseDate(month, day, year);
    MonthAbbreviationsDistinct(parsed.value.month - 1, d.month - 1);
  }

  // ---------------------------------------------------------------- the coordinates pattern

  /** The text `GetMap("` that opens the coordinates pattern. */
  const GetMapOpening: string := "GetMap(\""

  /** The class `[-\d\.]`. */
  predicate IsCoordinateChar(c: char)
  {
    c == '-' || c == '.' || IsDigit(c)
  }

  /**
   * A match of `GetMap\("([-\d\.]+):([-\d\.]+)"`: the latitude group is
   * `s[start + 8..colon]`, the longitude group `s[colon + 1..close]`.
   */
  datatype CoordinatesMatch = CoordinatesMatch(start: nat, colon: nat, close: nat)

  /** `m` describes a substring of `s` that the coordinates pattern matches. */
  ghost predicate IsCoordinatesMatch(s: string, m: CoordinatesMatch)
  {
    && OccursAt(s, GetMapOpening, m.start)
    && m.start + |GetMapOpening| < m.colon < |s| && s[m.colon] == ':'
    && m.colon + 1 < m.close < |s| && s[m.close] == '"'
    && AllIn(s, m.start + |GetMapOpening|, m.colon, IsCoordinateChar)
    && AllIn(s, m.colon + 1, m.close, IsCoordinateChar)
  }

  /**
   * The engine's attempt at position `i`: each group takes the longest run
   * of the class, which never holds the `:` or `"` that must follow it.
   */
  function MatchCoordinatesAt(s: string, i: nat): (r: Option<CoordinatesMatch>)
    ensures r.Some? ==> r.value.start == i && IsCoordinatesMatch(s, r.value)
  {
    if OccursAt(s, GetMapOpening, i) then
      var colon := RunEnd(s, i + |GetMapOpening|, IsCoordinateChar);
      if i + |GetMapOpening| < colon < |s| && s[colon] == ':' then
        var close := RunEnd(s, colon + 1, IsCoordinateChar);
        if colon + 1 < close < |s| && s[close] == '"' then Some(CoordinatesMatch(i, colon, close))
        else None
      else None
    else None
  }

  /** The attempt at a position finds every match that starts there. */
  lemma MatchCoordinatesComplete(s: string, m: CoordinatesMatch)
    requires IsCoordinatesMatch(s, m)
    ensures MatchCoordinatesAt(s, m.start) == Some(m)
  {
  }

  /** `re.search` with the coordinates pattern: the leftmost match, or none. */
  function SearchCoordinates(s: string): (r: Option<CoordinatesMatch>)
    ensures r.Some? ==> IsCoordinatesMatch(s, r.value)
  {
    var found := FirstMatch(j => MatchCoordinatesAt(s, j), 0, |s|);
    if found.Some? then Some(found.value.1) else None
  }

  /**
   * The search finds the leftmost match of the coordinates pattern, and finds none
   * exactly when the pattern matches nowhere.
   */
  lemma SearchCoordinatesSpec(s: string)
    ensures SearchCoordinates(s).Some? ==> forall m :: IsCoordinatesMatch(s, m) ==> SearchCoordinates(s).value.start <= m.start
    ensures SearchCoordinates(s).None? <==> forall m :: !IsCoordinatesMatch(s, m)
  {
    var found := FirstMatch(j => MatchCoordinatesAt(s, j), 0, |s|);
    forall m | IsCoordinatesMatch(s, m)
      ensures found.Some? && found.value.0 <= m.start
    {
      MatchCoordinatesComplete(s, m);
      assert (j => MatchCoordinatesAt(s, j))(m.start).Some?;
    }
  }

  /** The first group of a coordinates match. */
  function LatitudeText(s: string, m: CoordinatesMatch): string
    requires IsCoordinatesMatch(s, m)
  {
    s[m.start + |GetMapOpening|..m.colon]
  }

  /** The second group of a coordinates match. */
  function LongitudeText(s: string, m: CoordinatesMatch): string
    requires IsCoordinatesMatch(s, m)
  {
    s[m.colon + 1..m.close]
  }

  /** How many times `c` occurs in `s`. */
  function Count(s: string, c: char): nat
  {
    if s == [] then 0 else Count(s[1..], c) + (if s[0] == c then 1 else 0)
  }

  /**
   * Whether Python's `float` accepts a text made of `-`, `.` and digits: an
   * optional leading minus, then digits with at most one point and at least
   * one digit.
   */
  predicate IsFloatText(t: string)
  {
    IsUnsignedFloatText(if t != [] && t[0] == '-' then t[1..] else t)
  }

  /** Digits and points, at most one point and at least one digit. */
  predicate IsUnsignedFloatText(body: string)
  {
    && Count(body, '.') <= 1
    && (exists k | 0 <= k < |body| :: IsDigit(body[k]))
    && (forall k | 0 <= k < |body| :: IsDigit(body[k]) || body[k] == '.')
  }

  /** Every character of `s` is a digit. */
  predicate AllDigits(s: string)
  {
    forall k | 0 <= k < |s| :: IsDigit(s[k])
  }

  /**
   * `t` is the optional minus `sign` followed by the digits `a`, or by the
   * digits `a`, a point and the digits `b`; at least one digit in all.
   */
  predicate IsFloatForm(t: string, sign: string, a: string, b: string)
  {
    && (sign == "" || sign == "-")
    && AllDigits(a) && AllDigits(b)
    && ((t == sign + a && |a| >= 1) || (t == sign + a + "." + b && |a| + |b| >= 1))
  }

  /** Counting a character is additive over concatenation. */
  lemma {:induction false} CountAppend(x: string, y: string, c: char)
    ensures Count(x + y, c) == Count(x, c) + Count(y, c)
  {
    if x == [] {
      assert x + y == y;
    } else {
      assert (x + y)[1..] == x[1..] + y;
      CountAppend(x[1..], y, c);
    }
  }

  /** A character is counted zero times exactly when it does not occur. */
  lemma {:induction false} CountZero(s: string, c: char)
    ensures Count(s, c) == 0 <==> forall k | 0 <= k < |s| :: s[k] != c
  {
    if s != [] {
      CountZero(s[1..], c);
      assert forall k | 1 <= k < |s| :: s[k] == s[1..][k - 1];
    }
  }

  /** A text without a point passes exactly when it is a non-empty run of digits. */
  lemma WithoutPoint(body: string)
    requires forall k | 0 <= k < |body| :: body[k] != '.'
    ensures IsUnsignedFloatText(body) <==> AllDigits(body) && |body| >= 1
  {
    CountZero(body, '.');
  }

  /** A text with a point passes exactly when digits surround it and there is at least one. */
  lemma AroundPoint(a: string, b: string)
    ensures IsUnsignedFloatText(a + "." + b) <==> AllDigits(a) && AllDigits(b) && |a| + |b| >= 1
  {
    PointCount(a, b);
    CountZero(a, '.');
    CountZero(b, '.');
    if AllDigits(a) && AllDigits(b) && |a| + |b| >= 1 {
      DigitsAroundPoint(a, b);
    }
    if IsUnsignedFloatText(a + "." + b) {
      var s := a + "." + b;
      assert forall k | 0 <= k < |a| :: s[k] == a[k];
      assert forall k | 0 <= k < |b| :: s[|a| + 1 + k] == b[k];
    }
  }

  /** The points of `a.b` are those of `a`, the one between, and those of `b`. */
  lemma PointCount(a: string, b: string)
    ensures Count(a + "." + b, '.') == Count(a, '.') + 1 + Count(b, '.')
  {
    assert a + "." + b == a + ("." + b);
    CountAppend(a, "." + b, '.');
    CountAppend(".", b, '.');
    assert Count(".", '.') == 1;
  }

  /** Digits around a point, at least one of them, pass the character tests. */
  lemma DigitsAroundPoint(a: string, b: string)
    requires AllDigits(a) && AllDigits(b) && |a| + |b| >= 1
    ensures (exists k | 0 <= k < |a + "." + b| :: IsDigit((a + "." + b)[k]))
    ensures forall k | 0 <= k < |a + "." + b| :: IsDigit((a + "." + b)[k]) || (a + "." + b)[k] == '.'
  {
    var s := a + "." + b;
    forall k | 0 <= k < |s| ensures IsDigit(s[k]) || s[k] == '.' {
      if k < |a| {
        assert s[k] == a[k];
      } else if k > |a| {
        assert s[k] == b[k - |a| - 1];
      }
    }
    if |a| == 0 {
      assert s[1] == b[0];
    } else {
      assert s[0] == a[0];
    }
  }

  /**
   * The texts `float` accepts, in a second form: a sign, digits, and
   * optionally a point and more digits, such as `-71.05`, `42`, `5.` or `.5`.
   */
  lemma FloatTextForms(t: string)
    ensures IsFloatText(t) <==> exists sign, a, b :: IsFloatForm(t, sign, a, b)
  {
    if IsFloatText(t) {
      FloatTextHasForm(t);
    }
    if exists sign, a, b :: IsFloatForm(t, sign, a, b) {
      var sign, a, b :| IsFloatForm(t, sign, a, b);
      FormIsFloatText(t, sign, a, b);
    }
  }

  /** Every text `float` accepts has the second form. */
  lemma FloatTextHasForm(t: string)
    requires IsFloatText(t)
    ensures exists sign, a, b :: IsFloatForm(t, sign, a, b)
  {
    var sign := if t != [] && t[0] == '-' then "-" else "";
    var body := if t != [] && t[0] == '-' then t[1..] else t;
    assert t == sign + body;
    var a, b, point := SplitAtPoint(body);
    if point {
      SignedPointForm(t, sign, a, b);
    } else {
      assert IsFloatForm(t, sign, a, b);
    }
  }

  /** The digits before and after the point of a text `float` accepts, if it has a point. */
  lemma SplitAtPoint(body: string) returns (a: string, b: string, point: bool)
    requires IsUnsignedFloatText(body)
    ensures AllDigits(a) && AllDigits(b)
    ensures point ==> body == a + "." + b && |a| + |b| >= 1
    ensures !point ==> body == a && |a| >= 1
  {
    if p :| 0 <= p < |body| && body[p] == '.' {
      a, b, point := body[..p], body[p + 1..], true;
      assert body == a + "." + b;
      AroundPoint(a, b);
    } else {
      a, b, point := body, "", false;
      WithoutPoint(body);
    }
  }

  /** A sign before digits around a point is the second form. */
  lemma SignedPointForm(t: string, sign: string, a: string, b: string)
    requires sign == "" || sign == "-"
    requires t == sign + (a + "." + b)
    requires AllDigits(a) && AllDigits(b) && |a| + |b| >= 1
    ensures IsFloatForm(t, sign, a, b)
  {
    assert sign + (a + "." + b) == sign + a + "." + b;
  }

  /** Every text of the second form is accepted by `float`. */
  lemma FormIsFloatText(t: string, sign: string, a: string, b: string)
    requires IsFloatForm(t, sign, a, b)
    ensures IsFloatText(t)
  {
    var rest := if t == sign + a && |a| >= 1 then a else a + "." + b;
    assert t == sign + rest;
    assert |rest| >= 1;
    assert rest[0] == '.' || IsDigit(rest[0]);
    assert t[|sign|..] == rest;
    if rest == a {
      WithoutPoint(a);
    } else {
      AroundPoint(a, b);
    }
  }

  // ---------------------------------------------------------------- get_metadata

  /** The bullet that separates name, date and location in a results title, as the page's text decodes it. */
  const Bullet: string := "\U{E2}\U{20AC}\U{A2}"

  /** The title split on the bullet, each piece stripped. */
  function TitlePieces(title: string): (r: seq<string>)
    ensures |r| >= 1
  {
    Map(Strip, Split(title, Bullet))
  }

  /** A title has a date piece exactly when it holds the bullet. */
  lemma TitlePiecesCount(title: string)
    ensures |TitlePieces(title)| >= 2 <==> Contains(title, Bullet)
  {
  }

  /**
   * The pieces of a title are the stretches between its bullets, each
   * stripped: the stretches hold no bullet and rejoin to the title, and
   * stripping a piece again changes nothing.
   */
  lemma TitlePiecesSpec(title: string)
    ensures var raw := Split(title, Bullet);
      && Join(raw, Bullet) == title
      && |TitlePieces(title)| == |raw|
      && forall k :: 0 <= k < |raw| ==>
        && !Contains(raw[k], Bullet)
        && TitlePieces(title)[k] == Strip(raw[k])
        && Strip(TitlePieces(title)[k]) == TitlePieces(title)[k]
  {
    var raw := Split(title, Bullet);
    JoinSplit(title, Bullet);
    forall k | 0 <= k < |raw|
      ensures Strip(TitlePieces(title)[k]) == TitlePieces(title)[k]
    {
      StripIdempotent(raw[k]);
    }
  }

  /** The first piece of a split on tab, newline and carriage return: the text before the first of them. */
  function BeforeLineBreak(s: string): (r: string)
    ensures |r| <= |s| && r == s[..|r|]
    ensures forall k :: 0 <= k < |r| ==> r[k] !in "\t\n\r"
    ensures |r| == |s| || s[|r|] in "\t\n\r"
  {
    s[..RunEnd(s, 0, c => c !in "\t\n\r")]
  }

  /** A value of the metadata row. */
  datatype Value = Str(text: string) | When(date: Date) | Decimal(digits: string)

  /** Why `get_metadata` raises. */
  datatype MetadataError =
    | TitleTooShort      // the title has no bullet: too few values to unpack
    | NoDate             // the date pattern matches nowhere in the date piece
    | InvalidDate        // strptime rejects the matched date
    | InvalidCoordinate  // float rejects a coordinate group

  /**
   * The keys `get_metadata` can write: `json_url`, `name`, `date`, `loc`,
   * `lat` and `lng`. Being a closed type, a row has no other key.
   */
  datatype Key = JsonUrl | Name | RaceDate | Loc | Lat | Lng

  /** The date the date piece of a title spells, when a valid one does. */
  function DateOf(piece: string): (r: Option<Date>)
    ensures r.Some? ==> ValidDate(r.value)
  {
    match SearchDate(piece)
    case None => None
    case Some(m) =>
      ParseDate(piece[m.start..m.start + 3], piece[m.dayStart..m.dayEnd], piece[m.yearStart..m.end])
  }

  /** `m` is a match of the date pattern in `s` that starts no later than any other. */
  ghost predicate IsLeftmostDateMatch(s: string, m: DateMatch)
  {
    IsDateMatch(s, m) && forall m' :: IsDateMatch(s, m') ==> m.start <= m'.start
  }

  /** `m` is the leftmost match of the date pattern in `s` and its groups spell `d`. */
  ghost predicate LeftmostSpells(s: string, m: DateMatch, d: Date)
  {
    IsLeftmostDateMatch(s, m) && Spells(d, s[m.start..m.start + 3], s[m.dayStart..m.dayEnd], s[m.yearStart..m.end])
  }

  /**
   * The date piece yields `d` exactly when the leftmost match of the date
   * pattern spells `d` and `d` is a valid date.
   */
  lemma DateOfSpec(piece: string, d: Date)
    ensures DateOf(piece) == Some(d) <==> ValidDate(d) && exists m :: LeftmostSpells(piece, m, d)
  {
    if DateOf(piece) == Some(d) {
      DateOfSound(piece, d);
    }
    if ValidDate(d) && exists m :: LeftmostSpells(piece, m, d) {
      var m :| LeftmostSpells(piece, m, d);
      DateOfComplete(piece, m, d);
    }
  }

  /** A date the piece yields is valid and spelled by the leftmost match `re.search` finds. */
  lemma DateOfSound(piece: string, d: Date)
    requires DateOf(piece) == Some(d)
    ensures SearchDate(piece).Some?
    ensures LeftmostSpells(piece, SearchDate(piece).value, d) && ValidDate(d)
  {
    SearchDateSpec(piece);
  }

  /** A valid date the leftmost match spells is the date the piece yields. */
  lemma DateOfComplete(piece: string, m: DateMatch, d: Date)
    requires LeftmostSpells(piece, m, d) && ValidDate(d)
    ensures DateOf(piece) == Some(d)
  {
    LeftmostIsFound(piece, m);
    var month, day, year := piece[m.start..m.start + 3], piece[m.dayStart..m.dayEnd], piece[m.yearStart..m.end];
    ParseDateComplete(month, day, year);
    var e := ParseDate(month, day, year).value;
    MonthAbbreviationsDistinct(e.month - 1, d.month - 1);
    assert e == d;
  }

  /** `re.search` returns the leftmost match of the date pattern. */
  lemma LeftmostIsFound(s: string, m: DateMatch)
    requires IsLeftmostDateMatch(s, m)
    ensures SearchDate(s) == Some(m)
  {
    SearchDateSpec(s);
    var m0 := SearchDate(s).value;
    MatchDateComplete(s, m);
    MatchDateComplete(s, m0);
  }

  /**
   * When the stripped location piece holds no tab, newline or carriage
   * return, the location stored is that piece itself.
   */
  lemma LocationOfPlainPiece(title: string)
    requires |TitlePieces(title)| >= 3
    requires forall k :: 0 <= k < |TitlePieces(title)[2]| ==> TitlePieces(title)[2][k] !in "\t\n\r"
    ensures Strip(BeforeLineBreak(TitlePieces(title)[2])) == TitlePieces(title)[2]
  {
    TitlePiecesSpec(title);
  }

  /**
   * The error the title raises, if any: too few pieces, then no date
   * match, then an invalid date, in the order the source meets them.
   */
  function TitleError(pieces: seq<string>): Option<MetadataError>
  {
    if |pieces| < 2 then Some(TitleTooShort) else DateError(pieces[1])
  }

  /** The error the date piece raises, if any: no date match, then an invalid date. */
  function DateError(piece: string): Option<MetadataError>
  {
    if SearchDate(piece).None? then Some(NoDate)
    else if DateOf(piece).None? then Some(InvalidDate)
    else None
  }

  /** The error the page raises, if any: a `GetMap` match with a coordinate group `float` rejects. */
  function CoordinatesError(page: string): Option<MetadataError>
  {
    match SearchCoordinates(page)
    case None => None
    case Some(m) =>
      if IsFloatText(LatitudeText(page, m)) && IsFloatText(LongitudeText(page, m)) then None
      else Some(InvalidCoordinate)
  }

  /** The error `get_metadata` raises for a page with data, if any: the title's first, then the page's. */
  function PageError(page: string, title: string): Option<MetadataError>
  {
    var pieces := TitlePieces(title);
    if TitleError(pieces).Some? then TitleError(pieces) else CoordinatesError(page)
  }

  /**
   * What the row of a page with data holds: `json_url`, `name` (the first
   * title piece) and `date` (the valid date the second piece spells) always;
   * `loc` exactly when the title has a third piece; `lat` and `lng` exactly
   * when the page holds a `GetMap("…:…")` call; no other key.
   */
  ghost predicate IsMetadataRow(row: map<Key, Value>, page: string, jsonUrl: string, title: string)
  {
    var pieces := TitlePieces(title);
    && |pieces| >= 2 && DateOf(pieces[1]).Some? && ValidDate(DateOf(pieces[1]).value)
    && HasTitleFields(row, jsonUrl, pieces, DateOf(pieces[1]).value)
    && HasLocation(row, pieces)
    && HasCoordinates(row, page)
  }

  /** The row holds the link, the name piece and the date. */
  ghost predicate HasTitleFields(row: map<Key, Value>, jsonUrl: string, pieces: seq<string>, date: Date)
    requires |pieces| >= 1
  {
    && JsonUrl in row && row[JsonUrl] == Str(jsonUrl)
    && Name in row && row[Name] == Str(pieces[0])
    && RaceDate in row && row[RaceDate] == When(date)
  }

  /** `loc` is present exactly for a third title piece, cut at its first line break and stripped. */
  ghost predicate HasLocation(row: map<Key, Value>, pieces: seq<string>)
  {
    && (Loc in row <==> |pieces| >= 3)
    && (|pieces| >= 3 ==> row[Loc] == Str(Strip(BeforeLineBreak(pieces[2]))))
  }

  /** `lat` and `lng` are present together, exactly for a `GetMap` match, from its leftmost occurrence. */
  ghost predicate HasCoordinates(row: map<Key, Value>, page: string)
  {
    && (Lat in row <==> Lng in row)
    && (Lat in row <==> SearchCoordinates(page).Some?)
    && (Lat in row ==>
          var m := SearchCoordinates(page).value;
          row[Lat] == Decimal(LatitudeText(page, m)) && row[Lng] == Decimal(LongitudeText(page, m)))
  }

  /**
   * The fields the title gives a row: the link, the name, the date and,
   * for a third piece, the location; no coordinates yet.
   */
  ghost predicate IsTitleRow(row: map<Key, Value>, jsonUrl: string, pieces: seq<string>, date: Date)
  {
    && |pieces| >= 2
    && HasTitleFields(row, jsonUrl, pieces, date) && HasLocation(row, pieces)
    && Lat !in row && Lng !in row
  }

  /** `row` is `before` with the page's coordinates added and every other key kept. */
  ghost predicate AddsCoordinates(row: map<Key, Value>, before: map<Key, Value>, page: string)
  {
    && HasCoordinates(row, page)
    && forall k :: k != Lat && k != Lng ==> (k in row <==> k in before) && (k in row ==> row[k] == before[k])
  }

  /**
   * The date step of `get_metadata`: search the date piece for the date
   * pattern and read the match with `strptime`.
   */
  method ReadDate(piece: string) returns (r: Result<Date, MetadataError>)
    ensures r.Err? ==> DateError(piece) == Some(r.error)
    ensures r.Ok? ==> DateError(piece).None? && DateOf(piece) == Some(r.value)
  {
    if SearchDate(piece).None? {
      return Err(NoDate);
    }
    var parsed := DateOf(piece);
    if parsed.None? {
      return Err(InvalidDate);
    }
    return Ok(parsed.value);
  }

  /**
   * The row the title gives once its date is read: the link, the name
   * piece, the date and, for a third piece, the location.
   */
  method TitleRow(jsonUrl: string, pieces: seq<string>, date: Date) returns (row: map<Key, Value>)
    requires |pieces| >= 2
    ensures IsTitleRow(row, jsonUrl, pieces, date)
  {
    row := map[JsonUrl := Str(jsonUrl)];
    row := row[Name := Str(pieces[0])];
    row := row[RaceDate := When(date)];
    if |pieces| >= 3 {
      row := row[Loc := Str(Strip(BeforeLineBreak(pieces[2])))];
    }
  }

  /**
   * The coordinates part of `get_metadata`: adds `lat` and `lng` from the
   * leftmost `GetMap` call of the page, if there is one, or raises for a
   * coordinate group `float` rejects.
   */
  method ReadCoordinates(page: string, row: map<Key, Value>) returns (r: Result<map<Key, Value>, MetadataError>)
    requires Lat !in row && Lng !in row
    ensures r.Err? ==> CoordinatesError(page) == Some(r.error)
    ensures r.Ok? ==> CoordinatesError(page).None? && AddsCoordinates(r.value, row, page)
  {
    var search := SearchCoordinates(page);
    if search.None? {
      return Ok(row);
    }
    var lat, lng := LatitudeText(page, search.value), LongitudeText(page, search.value);
    if !(IsFloatText(lat) && IsFloatText(lng)) {
      return Err(InvalidCoordinate);
    }
    return Ok(row[Lat := Decimal(lat)][Lng := Decimal(lng)]);
  }

  /** A title row with the page's coordinates added is the whole metadata row. */
  lemma CombinedRow(row: map<Key, Value>, before: map<Key, Value>, page: string, jsonUrl: string, title: string)
    requires |TitlePieces(title)| >= 2 && DateOf(TitlePieces(title)[1]).Some?
    requires IsTitleRow(before, jsonUrl, TitlePieces(title), DateOf(TitlePieces(title)[1]).value)
    requires AddsCoordinates(row, before, page)
    ensures IsMetadataRow(row, page, jsonUrl, title)
  {
    assert JsonUrl in before && Name in before && RaceDate in before;
    assert Loc in row <==> Loc in before;
  }

  /**
   * `get_metadata`: the empty row for a page saying `No data`; otherwise
   * the error `PageError` names, or a row as `IsMetadataRow` describes.
   */
  method GetMetadata(page: string, jsonUrl: string, title: string)
    returns (r: Result<map<Key, Value>, MetadataError>)
    ensures Contains(page, "No data") ==> r == Ok(map[])
    ensures !Contains(page, "No data") && PageError(page, title).Some? ==>
      r == Err(PageError(page, title).value)
    ensures !Contains(page, "No data") && PageError(page, title).None? ==>
      r.Ok? && IsMetadataRow(r.value, page, jsonUrl, title)
  {
    if Contains(page, "No data") {
      return Ok(map[]);
    }
    var pieces := TitlePieces(title);
    if |pieces| < 2 {
      return Err(TitleTooShort);
    }
    var date := ReadDate(pieces[1]);
    if date.Err? {
      return Err(date.error);
    }
    var before := TitleRow(jsonUrl, pieces, date.value);
    r := ReadCoordinates(page, before);
    if r.Ok? {
      CombinedRow(r.value, before, page, jsonUrl, title);
    }
  }
}
