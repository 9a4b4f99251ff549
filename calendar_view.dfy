/**
 * `CalendarView`: the side panel that lists one day's events. Modelled here: the Markdown
 * list detection that decides whether inserted events get a bullet, the date the panel
 * follows (and the refresh it skips when that date does not change), and the text and cursor
 * position of an insertion into the note being edited.
 */
module CalendarView {
  import opened Wrappers
  import opened CalendarDate
  import opened Text
  import opened DateUtils
  import opened WikiLinkFormatter
  import opened GoogleCalendarApi

  // ---------------------------------------------------------------------------
  // List detection: `/^\s*[-*+](\s|$)|^\s*\d+\.\s/`

  predicate IsBulletMarker(c: char) {
    c == '-' || c == '*' || c == '+'
  }

  /** The length of the run of digits that starts `s`. */
  function LeadingDigits(s: string): (n: nat)
    ensures n <= |s| && AllDigits(s[..n]) && (n < |s| ==> !IsDigit(s[n]))
  {
    if s != [] && IsDigit(s[0]) then
      var n := 1 + LeadingDigits(s[1..]);
      assert s[..n] == [s[0]] + s[1..][..n - 1];
      n
    else 0
  }

  /** What follows the indentation of a list line: a bullet followed by whitespace or the end of the line, or a number, a dot and whitespace. */
  predicate IsListBody(rest: string) {
    (rest != [] && IsBulletMarker(rest[0]) && (|rest| == 1 || IsJsWhitespace(rest[1])))
    || (var k := LeadingDigits(rest); 1 <= k && k + 1 < |rest| && rest[k] == '.' && IsJsWhitespace(rest[k + 1]))
  }

  /**
   * A list line: one whose text after the leading whitespace is a list body; that is exactly
   * when the list pattern has a match in it.
   */
  function IsListLine(line: string): (r: bool)
    ensures r <==> ListPatternMatches(line)
  {
    ListLineIsPattern(line);
    IsListBody(TrimStart(line))
  }

  /** The first alternative of the pattern matches with the bullet at `w`. */
  predicate BulletAt(line: string, w: int) {
    0 <= w < |line| && AllWhitespace(line[..w]) && IsBulletMarker(line[w])
    && (w + 1 == |line| || IsJsWhitespace(line[w + 1]))
  }

  /** The second alternative matches with the number at `w..e` and the dot at `e`. */
  predicate NumberAt(line: string, w: int, e: int) {
    0 <= w < e && e + 1 < |line| && AllWhitespace(line[..w]) && AllDigits(line[w..e])
    && line[e] == '.' && IsJsWhitespace(line[e + 1])
  }

  /** The pattern, read as "some way of matching it exists". */
  predicate ListPatternMatches(line: string) {
    (exists w :: 0 <= w < |line| && BulletAt(line, w))
    || (exists w, e :: 0 <= w < e < |line| && NumberAt(line, w, e))
  }

  /** Whitespace up to `w` and none at `w`: the trimmed line starts at `w`. */
  lemma {:induction false} TrimStartAt(s: string, w: nat)
    requires w < |s| && AllWhitespace(s[..w]) && !IsJsWhitespace(s[w])
    ensures TrimStart(s) == s[w..]
    decreases w
  {
    if w > 0 {
      assert s[..w][0] == s[0];
      assert s[1..][..w - 1] == s[1..w];
      assert forall i :: 0 <= i < w - 1 ==> s[1..w][i] == s[..w][i + 1];
      TrimStartAt(s[1..], w - 1);
      assert s[1..][w - 1..] == s[w..];
    }
  }

  /** Digits up to `k` and none at `k`: the run of leading digits is `k` long. */
  lemma {:induction false} LeadingDigitsAt(s: string, k: nat)
    requires k < |s| && AllDigits(s[..k]) && !IsDigit(s[k])
    ensures LeadingDigits(s) == k
    decreases k
  {
    if k > 0 {
      assert s[..k][0] == s[0];
      assert s[1..][..k - 1] == s[1..k];
      assert forall i :: 0 <= i < k - 1 ==> s[1..k][i] == s[..k][i + 1];
      LeadingDigitsAt(s[1..], k - 1);
    }
  }

  /** A digit is not whitespace; nor is a bullet or a dot. */
  lemma MarksAreNotWhitespace(c: char)
    ensures IsDigit(c) || IsBulletMarker(c) || c == '.' ==> !IsJsWhitespace(c)
  {
  }

  /** A bullet match at `w` makes the line a list line. */
  lemma BulletMatch(line: string, w: int)
    requires BulletAt(line, w)
    ensures IsListBody(TrimStart(line))
  {
    MarksAreNotWhitespace(line[w]);
    TrimStartAt(line, w);
  }

  /** Digits, a dot and whitespace make a list body. */
  lemma NumberBody(rest: string, k: nat)
    requires 1 <= k && k + 1 < |rest| && AllDigits(rest[..k]) && rest[k] == '.' && IsJsWhitespace(rest[k + 1])
    ensures IsListBody(rest)
  {
    LeadingDigitsAt(rest, k);
  }

  /** A numbered match at `w..e` makes the line a list line. */
  lemma NumberMatch(line: string, w: int, e: int)
    requires NumberAt(line, w, e)
    ensures IsListBody(TrimStart(line))
  {
    assert line[w..e][0] == line[w];
    MarksAreNotWhitespace(line[w]);
    TrimStartAt(line, w);
    NumberBodyAt(line, w, e);
  }

  /** After its indentation, a numbered match is a list body. */
  lemma NumberBodyAt(line: string, w: int, e: int)
    requires NumberAt(line, w, e)
    ensures IsListBody(line[w..])
  {
    var rest := line[w..];
    assert rest[..e - w] == line[w..e];
    assert rest[e - w] == line[e] && rest[e - w + 1] == line[e + 1];
    NumberBody(rest, e - w);
  }

  /** A list line has a match of the pattern, starting where its indentation ends. */
  lemma ListLineMatches(line: string)
    requires IsListBody(TrimStart(line))
    ensures ListPatternMatches(line)
  {
    var rest := TrimStart(line);
    var w0 := |line| - |rest|;
    assert rest == line[w0..];
    var k := LeadingDigits(rest);
    if rest != [] && IsBulletMarker(rest[0]) && (|rest| == 1 || IsJsWhitespace(rest[1])) {
      assert BulletAt(line, w0);
    } else {
      assert line[w0..w0 + k] == rest[..k];
      assert NumberAt(line, w0, w0 + k);
    }
  }

  /** The direct reading of the line agrees with the pattern. */
  lemma ListLineIsPattern(line: string)
    ensures IsListBody(TrimStart(line)) <==> ListPatternMatches(line)
  {
    if IsListBody(TrimStart(line)) {
      ListLineMatches(line);
    }
    forall w | 0 <= w < |line| && BulletAt(line, w) ensures IsListBody(TrimStart(line)) {
      BulletMatch(line, w);
    }
    forall w, e | 0 <= w < e < |line| && NumberAt(line, w, e) ensures IsListBody(TrimStart(line)) {
      NumberMatch(line, w, e);
    }
  }

  /** A line that is all whitespace trims to nothing. */
  lemma {:induction false} TrimStartAllWhitespace(s: string)
    requires AllWhitespace(s)
    ensures TrimStart(s) == []
    decreases |s|
  {
    if s != [] {
      TrimStartAllWhitespace(s[1..]);
    }
  }

  lemma {:induction false} TrimStartAfterIndent(indent: string, line: string)
    requires AllWhitespace(indent)
    ensures TrimStart(indent + line) == TrimStart(line)
    decreases |indent|
  {
    if indent != [] {
      assert (indent + line)[0] == indent[0];
      assert (indent + line)[1..] == indent[1..] + line;
      TrimStartAfterIndent(indent[1..], line);
    } else {
      assert indent + line == line;
    }
  }

  /** Indenting a line does not change whether it is a list line. */
  lemma IndentKeepsListLine(indent: string, line: string)
    requires AllWhitespace(indent)
    ensures IsListLine(indent + line) == IsListLine(line)
  {
    TrimStartAfterIndent(indent, line);
  }

  /** A line that trims to nothing is not a list line. */
  lemma BlankIsNotListLine(line: string)
    requires Trim(line) == []
    ensures !IsListLine(line)
  {
    var i, j :| 0 <= i <= j <= |line| && [] == line[i..j] && AllWhitespace(line[..i]) && AllWhitespace(line[j..]);
    assert i == j;
    forall n | 0 <= n < |line| ensures IsJsWhitespace(line[n]) {
      if n < i {
        assert line[..i][n] == line[n];
      } else {
        assert line[j..][n - j] == line[n];
      }
    }
    TrimStartAllWhitespace(line);
  }

  /**
   * `isCurrentLineInList`: the cursor's line is a list line, or it is blank and follows a list
   * line.
   */
  function IsCurrentLineInList(lines: seq<string>, n: nat): (r: bool)
    requires n < |lines|
    ensures r <==> ListPatternMatches(lines[n]) || (n > 0 && ListPatternMatches(lines[n - 1]) && Trim(lines[n]) == [])
  {
    IsListLine(lines[n]) || (n > 0 && IsListLine(lines[n - 1]) && Trim(lines[n]) == [])
  }

  /** A blank line is in a list exactly when a list line comes just before it; any other line when it is a list line. */
  lemma CurrentLineCases(lines: seq<string>, n: nat)
    requires n < |lines|
    ensures Trim(lines[n]) == [] ==> (IsCurrentLineInList(lines, n) <==> n > 0 && IsListLine(lines[n - 1]))
    ensures Trim(lines[n]) != [] ==> (IsCurrentLineInList(lines, n) <==> IsListLine(lines[n]))
  {
    if Trim(lines[n]) == [] {
      BlankIsNotListLine(lines[n]);
    }
  }

  // ---------------------------------------------------------------------------
  // Cursor arithmetic

  /** A position in the note: zero-based line and column. */
  datatype Pos = Pos(line: nat, ch: nat)

  /** The editor found for the insertion: the note's lines and the cursor. */
  datatype Editor = Editor(lines: seq<string>, cursor: Pos)

  /** What an insertion does to the note: the text put at a position, and the cursor after it. */
  datatype Edit = Edit(inserted: string, at: Pos, newCursor: Pos)

  /** Where typing `s` from `p` leaves the cursor: each newline starts the next line. */
  function Advance(p: Pos, s: string): Pos
    decreases |s|
  {
    if s == [] then p
    else Advance(if s[0] == '\n' then Pos(p.line + 1, 0) else Pos(p.line, p.ch + 1), s[1..])
  }

  lemma {:induction false} AdvanceAppend(p: Pos, a: string, b: string)
    ensures Advance(p, a + b) == Advance(Advance(p, a), b)
    decreases |a|
  {
    if a == [] {
      assert a + b == b;
    } else {
      assert (a + b)[0] == a[0] && (a + b)[1..] == a[1..] + b;
      AdvanceAppend(if a[0] == '\n' then Pos(p.line + 1, 0) else Pos(p.line, p.ch + 1), a[1..], b);
    }
  }

  /** Typing a text moves the cursor down one line per newline in it. */
  lemma {:induction false} AdvanceLine(p: Pos, s: string)
    ensures Advance(p, s).line == p.line + Count(s, '\n')
    decreases |s|
  {
    if s != [] {
      var last := s[|s| - 1];
      var init := s[..|s| - 1];
      assert s == init + [last];
      AdvanceAppend(p, init, [last]);
      AdvanceLine(p, init);
    }
  }

  /** After a text that ends with a newline the cursor is at the start of a line. */
  lemma AdvanceTextLine(p: Pos, s: string)
    ensures Advance(p, s + "\n") == Pos(p.line + Count(s, '\n') + 1, 0)
  {
    AdvanceAppend(p, s, "\n");
    AdvanceLine(p, s);
  }

  /** Each event as `formatEventAsBullet` renders it. */
  function FormatAll(events: seq<CalendarEvent>, includeBullet: bool): (r: seq<string>)
    ensures |r| == |events|
    ensures forall i :: 0 <= i < |events| ==>
              r[i] == FormatEventAsBullet(events[i].summary, events[i].attendees, includeBullet)
  {
    if events == [] then []
    else [FormatEventAsBullet(events[0].summary, events[0].attendees, includeBullet)] + FormatAll(events[1..], includeBullet)
  }

  /** `insertEventToNote` as written: the cursor goes one line down, whatever the text. */
  function InsertEventToNoteAsWritten(event: CalendarEvent, editor: Option<Editor>): (r: Option<Edit>)
    requires editor.Some? ==> editor.value.cursor.line < |editor.value.lines|
    ensures editor.None? <==> r.None?
    ensures r.Some? ==> r.value.newCursor == Pos(editor.value.cursor.line + 1, 0)
  {
    if editor.None? then None
    else
      var cursor := editor.value.cursor;
      var inList := IsCurrentLineInList(editor.value.lines, cursor.line);
      var formatted := FormatEventAsBullet(event.summary, event.attendees, !inList);
      Some(Edit(formatted + "\n", cursor, Pos(cursor.line + 1, 0)))
  }

  /** The written cursor is where the text ends exactly when the event's line has no newline in it. */
  lemma InsertEventCursorAsWritten(event: CalendarEvent, editor: Option<Editor>)
    requires editor.Some? && editor.value.cursor.line < |editor.value.lines|
    ensures var e := InsertEventToNoteAsWritten(event, editor).value;
            e.newCursor == Advance(e.at, e.inserted) <==> Count(e.inserted, '\n') == 1
  {
    var e := InsertEventToNoteAsWritten(event, editor).value;
    var formatted := e.inserted[..|e.inserted| - 1];
    assert e.inserted == formatted + "\n";
    AdvanceTextLine(e.at, formatted);
    CountAppend(formatted, "\n", '\n');
  }

  /** The title `A\nB` holds one line break, with or without the bullet in front of it. */
  lemma NewlineTitleCount(includeBullet: bool)
    ensures Count(FormatEventAsBullet("A\nB", [], includeBullet), '\n') == 1
  {
    var title := "A\nB";
    assert Count(title, '\n') == 1 by {
      assert title[..2] == "A\n";
      assert title[..2][..1] == "A";
      assert "A"[..0] == [];
    }
    if includeBullet {
      CountAppend("- ", title, '\n');
      assert "- "[..1] == "-";
    }
  }

  /** A title with a line break: the inserted text ends two lines down, the written cursor stops one line down. */
  lemma InsertEventTitleWithNewline(lines: seq<string>)
    requires |lines| >= 1
    ensures var e := InsertEventToNoteAsWritten(CalendarEvent("", "A\nB", "", "", []), Some(Editor(lines, Pos(0, 0)))).value;
            e.newCursor == Pos(1, 0) && Advance(e.at, e.inserted) == Pos(2, 0)
  {
    var includeBullet := !IsCurrentLineInList(lines, 0);
    var formatted := FormatEventAsBullet("A\nB", [], includeBullet);
    NewlineTitleCount(includeBullet);
    AdvanceTextLine(Pos(0, 0), formatted);
  }

  // ---------------------------------------------------------------------------
  // The view

  class View {
    /** The day whose events are shown. */
    var currentDate: Date
    /** The events of that day, as last fetched. */
    var events: seq<CalendarEvent>
    /** The days for which `refreshEvents` ran, in order. */
    var refreshed: seq<Date>

    predicate Valid()
      reads this
    {
      ValidDate(currentDate)
    }

    constructor(today: Date)
      requires ValidDate(today)
      ensures Valid() && currentDate == today && events == [] && refreshed == []
    {
      currentDate := today;
      events := [];
      refreshed := [];
    }

    /** `refreshEvents`: the events of the current day are fetched; a failed fetch keeps the old list. */
    method RefreshEvents(fetched: Result<seq<CalendarEvent>>)
      modifies this
      ensures currentDate == old(currentDate)
      ensures refreshed == old(refreshed) + [currentDate]
      ensures events == if fetched.Success? then fetched.value else old(events)
    {
      refreshed := refreshed + [currentDate];
      if fetched.Success? {
        events := fetched.value;
      }
    }

    /** `onTimelineVisibleDayChanged`: follow the day the timeline shows, refreshing only on a new date. */
    method OnTimelineVisibleDayChanged(date: Date, fetched: Result<seq<CalendarEvent>>)
      requires Valid() && ValidDate(date)
      modifies this
      ensures Valid()
      ensures date == old(currentDate) ==>
                currentDate == old(currentDate) && events == old(events) && refreshed == old(refreshed)
      ensures date != old(currentDate) ==>
                currentDate == date && refreshed == old(refreshed) + [date]
                && events == (if fetched.Success? then fetched.value else old(events))
    {
      if date != currentDate {
        currentDate := date;
        RefreshEvents(fetched);
      }
    }

    /** `onActiveFileChanged`: ignored while the timeline is the active tab; otherwise the same rule for the note's date. */
    method OnActiveFileChanged(timelineActive: bool, activeBasename: Option<string>, today: Date,
                               fetched: Result<seq<CalendarEvent>>)
      requires Valid() && ValidDate(today)
      modifies this
      ensures Valid()
      ensures var newDate := GetActiveNoteDate(activeBasename, today);
              if timelineActive || newDate == old(currentDate) then
                currentDate == old(currentDate) && events == old(events) && refreshed == old(refreshed)
              else
                currentDate == newDate && refreshed == old(refreshed) + [newDate]
                && events == (if fetched.Success? then fetched.value else old(events))
    {
      if !timelineActive {
        var newDate := GetActiveNoteDate(activeBasename, today);
        OnTimelineVisibleDayChanged(newDate, fetched);
      }
    }

    /**
     * `insertAllEventsToNote`: nothing without events or without an editor; otherwise the
     * formatted events, one per line, followed by a newline, with the cursor after them.
     */
    method InsertAllEventsToNote(editor: Option<Editor>) returns (r: Option<Edit>)
      requires editor.Some? ==> editor.value.cursor.line < |editor.value.lines|
      ensures events == [] || editor.None? <==> r.None?
      ensures r.Some? ==>
                var cursor := editor.value.cursor;
                var bullet := !IsCurrentLineInList(editor.value.lines, cursor.line);
                r.value.at == cursor
                && r.value.inserted == Join(FormatAll(events, bullet), "\n") + "\n"
                && r.value.newCursor == Advance(cursor, r.value.inserted)
    {
      if events == [] {
        return None;
      }
      if editor.None? {
        return None;
      }
      var cursor := editor.value.cursor;
      var isInList := IsCurrentLineInList(editor.value.lines, cursor.line);
      var formattedEvents := Join(FormatAll(events, !isInList), "\n");
      var lines := |Split(formattedEvents, '\n')|;
      SplitCount(formattedEvents, '\n');
      AdvanceTextLine(cursor, formattedEvents);
      r := Some(Edit(formattedEvents + "\n", cursor, Pos(cursor.line + lines, 0)));
    }

    /** `insertEventToNote` as intended: the cursor goes to the end of the inserted text. */
    method InsertEventToNote(event: CalendarEvent, editor: Option<Editor>) returns (r: Option<Edit>)
      requires editor.Some? ==> editor.value.cursor.line < |editor.value.lines|
      ensures editor.None? <==> r.None?
      ensures r.Some? ==>
                var cursor := editor.value.cursor;
                var bullet := !IsCurrentLineInList(editor.value.lines, cursor.line);
                r.value.at == cursor
                && r.value.inserted == FormatEventAsBullet(event.summary, event.attendees, bullet) + "\n"
                && r.value.newCursor == Advance(cursor, r.value.inserted)
    {
      if editor.None? {
        return None;
      }
      var cursor := editor.value.cursor;
      var isInList := IsCurrentLineInList(editor.value.lines, cursor.line);
      var formattedText := FormatEventAsBullet(event.summary, event.attendees, !isInList);
      AdvanceTextLine(cursor, formattedText);
      r := Some(Edit(formattedText + "\n", cursor, Pos(cursor.line + Count(formattedText, '\n') + 1, 0)));
    }
  }

  /** `getActiveNoteDate`: the date in the active note's name, or today. */
  function GetActiveNoteDate(activeBasename: Option<string>, today: Date): (r: Date)
    requires ValidDate(today)
    ensures ValidDate(r)
    ensures activeBasename.Some? && ParseDateFromFilename(activeBasename.value).Some? ==>
              r == ParseDateFromFilename(activeBasename.value).value
    ensures (activeBasename.None? || ParseDateFromFilename(activeBasename.value).None?) ==> r == today
  {
    if activeBasename.Some? && ParseDateFromFilename(activeBasename.value).Some? then
      ParseDateFromFilename(activeBasename.value).value
    else today
  }

  /** Both insertions with the same flag put the same event line; the list puts them one per line. */
  lemma InsertAllOfOne(e: CalendarEvent, bullet: bool)
    ensures Join(FormatAll([e], bullet), "\n") == FormatEventAsBullet(e.summary, e.attendees, bullet)
  {
  }
}
