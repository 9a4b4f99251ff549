/**
 * `DateUtils`: the `year-MM-DD` rendering of a date, reading a date back out of a note's
 * filename (with the calendar validation that the JavaScript `Date` constructor performs),
 * and the bounds of one local day.
 */
module DateUtils {
  import opened Wrappers
  import opened CalendarDate
  import opened Text

  /** `formatDateString`: the year unpadded, month and day padded to two digits. */
  function FormatDateString(d: Date): (s: string)
    requires ValidDate(d)
    ensures |s| == |IntToString(d.year)| + 6 && s[..|s| - 6] == IntToString(d.year)
    ensures s[|s| - 6] == '-' && s[|s| - 3] == '-'
    ensures AllDigits(s[|s| - 5..|s| - 3]) && DigitsValue(s[|s| - 5..|s| - 3]) == d.month
    ensures AllDigits(s[|s| - 2..]) && DigitsValue(s[|s| - 2..]) == d.day
    ensures forall i :: 0 <= i < |s| ==> IsDigit(s[i]) || s[i] == '-'
  {
    var y, m, dd := IntToString(d.year), Pad2(d.month), Pad2(d.day);
    DashedFields(y, m, dd);
    y + "-" + m + "-" + dd
  }

  /** Where the two padded fields sit at the end of `y-mm-dd`, and that it holds only digits and dashes. */
  lemma DashedFields(y: string, m: string, dd: string)
    requires |m| == 2 && |dd| == 2 && AllDigits(m) && AllDigits(dd)
    requires forall i :: 0 <= i < |y| ==> IsDigit(y[i]) || y[i] == '-'
    ensures var s := y + "-" + m + "-" + dd;
            |s| == |y| + 6 && s[..|y|] == y && s[|s| - 6] == '-' && s[|s| - 3] == '-'
            && s[|s| - 5..|s| - 3] == m && s[|s| - 2..] == dd
            && forall i :: 0 <= i < |s| ==> IsDigit(s[i]) || s[i] == '-'
  {
    var s := y + "-" + m + "-" + dd;
    assert s[..|y|] == y;
    assert s[|s| - 5..|s| - 3] == m;
    assert s[|s| - 2..] == dd;
    forall i | 0 <= i < |s|
      ensures IsDigit(s[i]) || s[i] == '-'
    {
      if i < |y| {
        assert s[i] == y[i];
      } else if |y| < i < |s| - 3 {
        assert s[i] == m[i - |y| - 1];
      } else if i > |s| - 3 {
        assert s[i] == dd[i - |y| - 4];
      }
    }
  }

  /** The pattern `(\d{4})-(\d{2})-(\d{2})` matches at position `i`. */
  predicate DatePatternAt(s: string, i: nat) {
    i + 10 <= |s|
    && AllDigits(s[i..i + 4]) && s[i + 4] == '-'
    && AllDigits(s[i + 5..i + 7]) && s[i + 7] == '-'
    && AllDigits(s[i + 8..i + 10])
  }

  /** The leftmost position, from `from` on, at which the date pattern matches. */
  function FirstDatePattern(s: string, from: nat): (r: Option<nat>)
    ensures r.Some? ==> from <= r.value && DatePatternAt(s, r.value)
    ensures r.Some? ==> forall j :: from <= j < r.value ==> !DatePatternAt(s, j)
    ensures r.None? ==> forall j :: from <= j ==> !DatePatternAt(s, j)
    decreases |s| - from
  {
    if from + 10 > |s| then None
    else if DatePatternAt(s, from) then Some(from)
    else FirstDatePattern(s, from + 1)
  }

  /** `filename.replace(/\.md$/, '')`: one trailing `.md` removed. */
  function StripMdExtension(filename: string): (r: string)
    ensures EndsWith(filename, ".md") ==> r + ".md" == filename
    ensures !EndsWith(filename, ".md") ==> r == filename
  {
    if EndsWith(filename, ".md") then filename[..|filename| - 3] else filename
  }

  /** The year, month (1-based) and day digits of the match at `i`. */
  function MatchYear(s: string, i: nat): nat requires DatePatternAt(s, i) { DigitsValue(s[i..i + 4]) }
  function MatchMonth(s: string, i: nat): nat requires DatePatternAt(s, i) { DigitsValue(s[i + 5..i + 7]) }
  function MatchDay(s: string, i: nat): nat requires DatePatternAt(s, i) { DigitsValue(s[i + 8..i + 10]) }

  /**
   * `parseDateFromFilename`: null for an empty name; otherwise the first date pattern in the
   * name without its `.md`, accepted only when `new Date(year, month - 1, day)` keeps all three.
   */
  function ParseDateFromFilename(filename: string): (r: Option<Date>)
    ensures filename == [] ==> r == None
    ensures r.Some? ==> ValidDate(r.value)
  {
    if filename == [] then None
    else
      var name := StripMdExtension(filename);
      match FirstDatePattern(name, 0)
      case None => None
      case Some(i) =>
        var year: int, month: int, day: int := MatchYear(name, i), MatchMonth(name, i) - 1, MatchDay(name, i);
        var date := JsNewDate(year, month, day);
        if date.year == year && date.month - 1 == month && date.day == day then Some(date) else None
  }

  /** The calendar validation the constructor performs, spelt out. */
  predicate AcceptedFields(year: int, month: int, day: int) {
    year >= 100 && 1 <= month <= 12 && 1 <= day <= DaysInMonth(year, month)
  }

  /**
   * Parsing reads the first match only, and returns exactly the date it spells when that date
   * exists in the calendar and its year is at least 100 (a year 0..99 is read by the
   * constructor as 1900 + year and so fails the comparison); otherwise null.
   */
  lemma ParseDateCharacterized(filename: string)
    requires filename != []
    ensures var name := StripMdExtension(filename);
            ParseDateFromFilename(filename) ==
              match FirstDatePattern(name, 0)
              case None => None
              case Some(i) =>
                if AcceptedFields(MatchYear(name, i), MatchMonth(name, i), MatchDay(name, i))
                then Some(Date(MatchYear(name, i), MatchMonth(name, i), MatchDay(name, i)))
                else None
  {
    var name := StripMdExtension(filename);
    match FirstDatePattern(name, 0)
    case None =>
    case Some(i) =>
      var year: int, month: int, day: int := MatchYear(name, i), MatchMonth(name, i), MatchDay(name, i);
      JsNewDateKeepsFields(year, month - 1, day);
  }

  /** Parsing the rendering of a date with a four-digit year, with or without `.md`, returns that date. */
  lemma ParseFormatted(d: Date, withExtension: bool)
    requires ValidDate(d) && 1000 <= d.year <= 9999
    ensures ParseDateFromFilename(FormatDateString(d) + (if withExtension then ".md" else "")) == Some(d)
  {
    var s := FormatDateString(d);
    var f := s + (if withExtension then ".md" else "");
    FourDigits(d.year);
    DigitsValueOfNatToString(d.year);
    assert f[|f| - 3..] == ".md" ==> withExtension by {
      if !withExtension {
        assert f[|f| - 1] == s[|s| - 1];
        assert IsDigit(s[|s| - 2..][1]);
      }
    }
    if withExtension {
      assert f[..|f| - 3] == s;
    }
    assert StripMdExtension(f) == s;
    assert |s| == 10;
    assert s[0..4] == IntToString(d.year);
    assert s[5..7] == s[|s| - 5..|s| - 3] && s[8..10] == s[|s| - 2..];
    assert DatePatternAt(s, 0);
    assert FirstDatePattern(s, 0) == Some(0);
    assert MatchYear(s, 0) == d.year && MatchMonth(s, 0) == d.month && MatchDay(s, 0) == d.day;
    assert AcceptedFields(d.year, d.month, d.day);
    ParseDateCharacterized(f);
  }

  /** `isDailyNoteFilename`: a date can be read out of the name; such a name has at least ten characters. */
  function IsDailyNoteFilename(filename: string): (r: bool)
    ensures r ==> |filename| >= 10
  {
    ParseDateFromFilename(filename).Some?
  }

  // ---------------------------------------------------------------------------
  // The day bounds of `getDateRange` (before the `toISOString` rendering).

  /** A local wall-clock instant. */
  datatype LocalTime = LocalTime(date: Date, hour: int, minute: int, second: int)

  /**
   * `getDateRange` as written: both bounds are rebuilt with `new Date(year, month, day, h, m, s)`,
   * so a date in the years 0..99 is moved to 1900..1999.
   */
  function GetDateRangeAsWritten(d: Date): (r: (LocalTime, LocalTime))
    requires ValidDate(d)
    ensures r.0.date == r.1.date && ValidDate(r.0.date)
    ensures r.0.hour == 0 && r.0.minute == 0 && r.0.second == 0
    ensures r.1.hour == 23 && r.1.minute == 59 && r.1.second == 59
  {
    var day := JsNewDate(d.year, d.month - 1, d.day);
    (LocalTime(day, 0, 0, 0), LocalTime(day, 23, 59, 59))
  }

  /** The bounds `getDateRange` evidently means: 00:00:00 and 23:59:59 of the given date. */
  function GetDateRange(d: Date): (r: (LocalTime, LocalTime))
    requires ValidDate(d)
    ensures r.0.date == d && r.1.date == d
    ensures r.0.hour == 0 && r.0.minute == 0 && r.0.second == 0
    ensures r.1.hour == 23 && r.1.minute == 59 && r.1.second == 59
  {
    (LocalTime(d, 0, 0, 0), LocalTime(d, 23, 59, 59))
  }

  /** Outside the years 0..99 the code as written gives the intended bounds. */
  lemma DateRangeAgrees(d: Date)
    requires ValidDate(d) && !(0 <= d.year <= 99)
    ensures GetDateRangeAsWritten(d) == GetDateRange(d)
  {
    JsNewDateInRange(d.year, d.month - 1, d.day);
  }

  /** In the year 50 the code as written asks for the events of 1950. */
  lemma DateRangeYearFifty()
    ensures GetDateRangeAsWritten(Date(50, 3, 1)).0.date == Date(1950, 3, 1)
    ensures GetDateRange(Date(50, 3, 1)).0.date == Date(50, 3, 1)
  {
    JsNewDateInRange(1950, 2, 1);
  }
}
