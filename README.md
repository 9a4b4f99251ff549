# Timeline Notes, modelled in Dafny

Timeline Notes is an Obsidian plugin. It shows the daily notes as one scrolling timeline,
and it adds a side panel with the day's Google Calendar events, which can be inserted into the
note being edited as lines of wiki-links. This project models the plugin's core:

- **CalendarDate**: Gregorian dates. It covers stepping a date by whole days (what JavaScript's
  `setDate(getDate() + k)` does), the normalisation of the `new Date(year, month, day)`
  constructor (including its reading of years 0..99 as 1900..1999), a day number that proves
  day arithmetic correct, and the en-US weekday and month names.
- **Text**: the string operations the core relies on: decimal rendering, `padStart`, `trim`, `split`, `join`.
- **DateUtils** (`src/utils/DateUtils.ts`): the `year-MM-DD` rendering, parsing a date out of a
  note's filename, and the bounds of one day.
- **WikiLinkFormatter** (`src/utils/WikiLinkFormatter.ts`): names derived from e-mail addresses,
  the attendee list `[[A]], [[B]] and [[C]]`, and the event line.
- **GoogleCalendarApi** (`src/calendar/GoogleCalendarAPI.ts`): how a Calendar response is
  normalised into events, and the authentication check made before any request.
- **DailyNoteManager** (`src/daily-notes/DailyNoteManager.ts`): the note path of a date, template
  processing, the choice of a new note's content, and the creation of missing parent folders.
- **CalendarView** (`src/ui/CalendarView.ts`): Markdown list detection, the date the panel
  follows, and the text and cursor position of an insertion into the note.
- **TimelineView** (`src/ui/TimelineView.ts`): the window of rendered days, kept by signed offset
  from a reference date. It covers `renderDays` with its re-entrancy guard, infinite scrolling at
  both ends, the day at the top of the viewport, focus locking by click, and jumping to a date.

Stateful parts are classes whose methods update fields: `TimelineView.Timeline`,
`CalendarView.View` and `DailyNoteManager.Manager`. The timeline's DOM is reduced to
`container`, the sequence of `data-offset` values of the day containers from top to bottom.
Each day section is reduced to the date it shows. The announcements of a new visible day are
recorded in `notifications`. The rest of the core is functions over datatypes.

These inputs become parameters:

- The clock: `today`.
- The vault: which folders exist, and whether a direct `createFolder` fails.
- The Calendar response: an already fetched `Result`.
- The editor: lines and cursor.
- The IntersectionObserver: a sequence of entries.

## Model

| member | source | states |
|---|---|---|
| CalendarDate.DaysInMonth | src/utils/DateUtils.ts:76-81 | Month lengths lie in 28..31; a month has 29 days exactly when it is February of a leap year (Gregorian rule). |
| CalendarDate.NextDay | src/ui/TimelineView.ts:444-448 | The next day is a valid date; the year changes only from 31 December, and then by one. |
| CalendarDate.PrevDay | src/ui/TimelineView.ts:444-448 | The previous day is a valid date; the year changes only from 1 January, and then by one. |
| CalendarDate.NextPrevInverse | src/ui/TimelineView.ts:444-448 | Stepping one day forward and one back, in either order, returns the same date. |
| CalendarDate.AddDays | src/ui/TimelineView.ts:444-448 | Moving a valid date by any number of days, negative included, gives a valid date. |
| CalendarDate.ShiftNext | src/ui/TimelineView.ts:444-448 | Moving the next day by `n` is moving the date by `n + 1`. |
| CalendarDate.ShiftPrev | src/ui/TimelineView.ts:444-448 | Moving the previous day by `n` is moving the date by `n - 1`. |
| CalendarDate.AddDaysAdd | src/ui/TimelineView.ts:444-448 | Moves compose: moving by `a` and then by `b` is moving by `a + b`. |
| CalendarDate.MonthStart | src/ui/TimelineView.ts:444-448 | Within a month, moving the 1st by `k` days gives day `1 + k` of that month. |
| CalendarDate.AddDaysYearGrows | src/ui/TimelineView.ts:444-448 | Moving forward never decreases the year. |
| CalendarDate.YearLength | src/utils/DateUtils.ts:76-81 | The closed-form count of days before a year grows by 366 over a leap year and by 365 otherwise. |
| CalendarDate.YearMonths | src/utils/DateUtils.ts:76-81 | January to November hold 334 days, plus one in a leap year. |
| CalendarDate.NextDayNumber | src/ui/TimelineView.ts:444-448 | The next day's day number is one more. |
| CalendarDate.PrevDayNumber | src/ui/TimelineView.ts:444-448 | The previous day's day number is one less. |
| CalendarDate.AddDaysDayNumber | src/ui/TimelineView.ts:444-448 | Moving by `k` days adds exactly `k` to the day number. |
| CalendarDate.DayNumberInYear | src/utils/DateUtils.ts:76-81 | A date's day number lies after the days before its year and within that year's count. |
| CalendarDate.DaysBeforeYearGrows | src/utils/DateUtils.ts:76-81 | Each year adds at least 365 days to the count before it. |
| CalendarDate.MonthsOrdered | src/utils/DateUtils.ts:76-81 | A month's first day number plus its length does not pass any later month's first day number. |
| CalendarDate.DayNumberInjective | src/utils/DateUtils.ts:76-81 | Two valid dates with the same day number are the same date. |
| CalendarDate.AddDaysCharacterized | src/ui/TimelineView.ts:444-448 | `AddDays(d, k) == e` holds exactly when `e`'s day number is `d`'s plus `k`. |
| CalendarDate.Weekday | src/daily-notes/DailyNoteManager.ts:204 | The weekday index is in 0..6. |
| CalendarDate.NextWeekday | src/daily-notes/DailyNoteManager.ts:204 | The next day's weekday is the following one, cyclically. |
| CalendarDate.WeekdayName | src/daily-notes/DailyNoteManager.ts:204 | The weekday is one of the seven en-US long names. |
| CalendarDate.WeekdayExample | src/daily-notes/DailyNoteManager.ts:204 | 1 January 2024 is a Monday. |
| CalendarDate.MonthName | src/daily-notes/DailyNoteManager.ts:205 | The month is one of the twelve en-US long names. |
| CalendarDate.JsNewDate | src/utils/DateUtils.ts:76 | The constructor always yields a valid date, whatever the overflowing month and day. |
| CalendarDate.JsSetDate | src/ui/TimelineView.ts:446 | `setDate` with any day number yields a valid date. |
| CalendarDate.SetDateMoves | src/ui/TimelineView.ts:446 | `setDate(getDate() + k)` is a move by `k` days. |
| CalendarDate.JsNewDateInRange | src/utils/DateUtils.ts:14-15 | For a valid date outside years 0..99, the constructor returns that very date. |
| CalendarDate.JsNewDateKeepsFields | src/utils/DateUtils.ts:76-81 | For every year of at least 0, month index of at least -1 and day of at least 0 (all that the filename parser can pass it), the constructor keeps year, month and day exactly when the year is at least 100, the month index is 0..11 and the day exists in that month. |
| CalendarDate.RolloverExamples | src/ui/TimelineView.ts:444-448 | Month, year and leap-day rollovers in both directions. |
| Text.NatToString | src/utils/DateUtils.ts:45-48 | Decimal digits without a leading zero; a single digit exactly below 10. |
| Text.IntToString | src/utils/DateUtils.ts:45-48 | Digits only for non-negative numbers; a minus sign then digits for negative ones. |
| Text.DigitsValueOfNatToString | src/utils/DateUtils.ts:71-73 | Reading back the rendering of `n`, as `parseInt` does, gives `n`. |
| Text.Pad2 | src/utils/DateUtils.ts:46-47 | `padStart(2, '0')`: all digits, the same value, exactly two characters below 100. |
| Text.TrimStart | src/ui/CalendarView.ts:321 | Only leading whitespace is removed, and all of it. |
| Text.TrimEnd | src/ui/CalendarView.ts:330 | Only trailing whitespace is removed, and all of it. |
| Text.Trim | src/daily-notes/DailyNoteManager.ts:40 | The result is a slice of the input with only whitespace around it, and it neither starts nor ends with whitespace. |
| Text.Split | src/daily-notes/DailyNoteManager.ts:161 | At least one piece, and no piece contains the separator. |
| Text.Join | src/utils/WikiLinkFormatter.ts:15 | Only computes; its meaning is stated by Text.JoinSplit, Text.JoinSnoc and DailyNoteManager.FolderPrefixIsJoin. |
| Text.JoinSplit | src/daily-notes/DailyNoteManager.ts:161-165 | Joining the pieces of a split with the separator gives back the string. |
| Text.SplitCount | src/ui/CalendarView.ts:257 | A split yields one piece more than there are separators. |
| Text.CountAppend | src/ui/CalendarView.ts:257 | Separator counts add up over a concatenation. |
| Text.JoinSnoc | src/utils/WikiLinkFormatter.ts:37 | Joining one more part at the end adds the separator and that part. |
| DateUtils.FormatDateString | src/utils/DateUtils.ts:44-49 | The unpadded decimal year, a dash, two digits reading back as the month, a dash, and two digits reading back as the day; only digits and dashes. |
| DateUtils.FirstDatePattern | src/utils/DateUtils.ts:67-68 | The leftmost position where `\d{4}-\d{2}-\d{2}` matches, or none when it matches nowhere. |
| DateUtils.StripMdExtension | src/utils/DateUtils.ts:64 | Exactly one trailing `.md` is removed, and nothing otherwise. |
| DateUtils.ParseDateFromFilename | src/utils/DateUtils.ts:60-87 | Null for an empty name; any date returned is valid. |
| DateUtils.ParseDateCharacterized | src/utils/DateUtils.ts:60-87 | The result is the date spelt at the first match when that date exists and its year is at least 100, and null otherwise. |
| DateUtils.ParseFormatted | src/utils/DateUtils.ts:44-87 | With a four-digit year, the rendering of a date, with or without `.md`, parses back to that date. |
| DateUtils.IsDailyNoteFilename | src/utils/DateUtils.ts:92-94 | A name accepted as a daily note has at least ten characters. |
| DateUtils.GetDateRangeAsWritten | src/utils/DateUtils.ts:13-21 | Both bounds lie on one valid date, at 00:00:00 and 23:59:59. |
| DateUtils.GetDateRange | src/utils/DateUtils.ts:13-21 | Both bounds lie on the given date, at 00:00:00 and 23:59:59. |
| DateUtils.DateRangeAgrees | src/utils/DateUtils.ts:14-15 | Outside years 0..99 the code as written gives the intended bounds. |
| DateUtils.DateRangeYearFifty | src/utils/DateUtils.ts:14-15 | For 1 March 50 the code as written bounds 1 March 1950. |
| WikiLinkFormatter.ToUpper | src/utils/WikiLinkFormatter.ts:14 | Lower-case ASCII letters move to upper case; every other character is kept. |
| WikiLinkFormatter.ToLower | src/utils/WikiLinkFormatter.ts:14 | Upper-case ASCII letters move to lower case; every other character is kept. |
| WikiLinkFormatter.LowerAll | src/utils/WikiLinkFormatter.ts:14 | Each character is lowered, in place. |
| WikiLinkFormatter.Capitalize | src/utils/WikiLinkFormatter.ts:14 | As long as the part; its first character upper-cased and every later one lower-cased. |
| WikiLinkFormatter.CapitalizeAll | src/utils/WikiLinkFormatter.ts:13-14 | Each part is capitalised, in order. |
| WikiLinkFormatter.LocalPart | src/utils/WikiLinkFormatter.ts:11 | The longest prefix without `@`: it either ends the address or is followed by `@`. |
| WikiLinkFormatter.SplitNameParts | src/utils/WikiLinkFormatter.ts:12 | At least one part, and no part contains `.`, `_` or `-`. |
| WikiLinkFormatter.ExtractName | src/utils/WikiLinkFormatter.ts:5-16 | A non-empty display name wins; otherwise the name built character by character from the local part. |
| WikiLinkFormatter.NameByCharacter | src/utils/WikiLinkFormatter.ts:11-15 | The derived name is exactly as long as the local part. |
| WikiLinkFormatter.NameByCharacterAt | src/utils/WikiLinkFormatter.ts:12-15 | Each character is decided locally: a separator becomes a space, a character after a separator or at the start is upper-cased, any other is lower-cased. |
| WikiLinkFormatter.RenderSplit | src/utils/WikiLinkFormatter.ts:12-15 | Splitting, capitalising each part and joining with spaces equals the character-by-character reading. |
| WikiLinkFormatter.SplitNamePartsJoin | src/utils/WikiLinkFormatter.ts:12 | Joining the parts with spaces replaces each separator by a space and keeps the rest. |
| WikiLinkFormatter.NameFromEmail | src/utils/WikiLinkFormatter.ts:10-15 | Without a display name, `john.doe@…` style addresses give one character per local-part character, as the per-character rule says. |
| WikiLinkFormatter.Link | src/utils/WikiLinkFormatter.ts:28 | `[[`, the name, `]]`. |
| WikiLinkFormatter.Links | src/utils/WikiLinkFormatter.ts:27-29 | One wiki-link per attendee, in order, around its extracted name. |
| WikiLinkFormatter.FormatAttendees | src/utils/WikiLinkFormatter.ts:22-40 | Empty exactly when there are no attendees; otherwise the listing of their links. |
| WikiLinkFormatter.ListNames | src/utils/WikiLinkFormatter.ts:31-39 | Empty for no names; otherwise it starts with the first name, and with two or more it ends with ` and ` and the last name. |
| WikiLinkFormatter.ListingStartsWithFirst | src/utils/WikiLinkFormatter.ts:31-39 | The listing starts with the first name. |
| WikiLinkFormatter.ListNamesIsListing | src/utils/WikiLinkFormatter.ts:31-39 | The three-case rule (one, two, more) agrees with the uniform listing `A, B and C`. |
| WikiLinkFormatter.AttendeeShapes | src/utils/WikiLinkFormatter.ts:31-39 | One, two and three attendees give `[[A]]`, `[[A]] and [[B]]`, `[[A]], [[B]] and [[C]]`. |
| WikiLinkFormatter.FormatEventAsBullet | src/utils/WikiLinkFormatter.ts:45-53 | An optional `- `, the title, and ` with ` and the listing when there are attendees. |
| GoogleCalendarApi.OrElse | src/calendar/GoogleCalendarAPI.ts:68-69 | JavaScript's logical or: the value when present and non-empty, else the fallback. |
| GoogleCalendarApi.TimeOf | src/calendar/GoogleCalendarAPI.ts:56-57 | `dateTime` if non-empty, else `date` if non-empty, else the empty string. |
| GoogleCalendarApi.ToAttendee | src/calendar/GoogleCalendarAPI.ts:62-65 | The e-mail kept; an empty display name becomes absent. |
| GoogleCalendarApi.FilterAttendees | src/calendar/GoogleCalendarAPI.ts:60-65 | No more attendees than given, each with a non-empty e-mail and no empty display name. |
| GoogleCalendarApi.FilterAttendeesAppend | src/calendar/GoogleCalendarAPI.ts:60-65 | The filter distributes over concatenation. |
| GoogleCalendarApi.FilterOneAttendee | src/calendar/GoogleCalendarAPI.ts:61 | One attendee survives, converted, exactly when it has an e-mail and is not the owner. |
| GoogleCalendarApi.FilterAttendeesCount | src/calendar/GoogleCalendarAPI.ts:60-65 | As many survive as pass the test; all survive exactly when all pass. |
| GoogleCalendarApi.NormalizeEvent | src/calendar/GoogleCalendarAPI.ts:54-74 | Each field takes its default as the code says; the summary is never empty. |
| GoogleCalendarApi.NormalizeEvents | src/calendar/GoogleCalendarAPI.ts:52-54 | One event per item, in the same order. |
| GoogleCalendarApi.GetEventsForDate | src/calendar/GoogleCalendarAPI.ts:35-80 | Fails when not authenticated; passes a failed request's error on; otherwise gives the normalised items, or none when `items` is missing. |
| GoogleCalendarApi.NoRequestWithoutAuthentication | src/calendar/GoogleCalendarAPI.ts:36-38 | Without authentication the response plays no part. |
| DailyNoteManager.GetFilenameForDate | src/daily-notes/DailyNoteManager.ts:29-33 | The date's rendering followed by `.md`. |
| DailyNoteManager.FilenameRoundTrip | src/daily-notes/DailyNoteManager.ts:29-33 | With a four-digit year, a note's filename parses back to its date and counts as a daily note. |
| DailyNoteManager.StripLeadingSlashes | src/daily-notes/DailyNoteManager.ts:47 | Only leading slashes are removed, and all of them. |
| DailyNoteManager.StripTrailingSlashes | src/daily-notes/DailyNoteManager.ts:47 | Only trailing slashes are removed, and all of them. |
| DailyNoteManager.CleanFolder | src/daily-notes/DailyNoteManager.ts:40-47 | The cleaned folder is empty or neither starts nor ends with a slash. |
| DailyNoteManager.GetPathForDateAsWritten | src/daily-notes/DailyNoteManager.ts:38-49 | The path ends with the filename. |
| DailyNoteManager.TwoSlashesFolder | src/daily-notes/DailyNoteManager.ts:40-47 | The folder `//` passes the empty-or-root test and cleans to the empty string. |
| DailyNoteManager.PathOfSlashesFolder | src/daily-notes/DailyNoteManager.ts:38-49 | With folder `//` the path as written is `/` plus the filename; the intended path is the filename. |
| DailyNoteManager.GetPathForDate | src/daily-notes/DailyNoteManager.ts:38-49 | The path never starts with a slash: the filename alone when the cleaned folder is empty, else that folder, a slash and the filename. |
| DailyNoteManager.PathsAgree | src/daily-notes/DailyNoteManager.ts:38-49 | The two agree whenever the cleaned folder is non-empty, or the trimmed folder is empty or `/`. |
| DailyNoteManager.ReplaceAll | src/daily-notes/DailyNoteManager.ts:209-214 | Only computes; its meaning is stated by DailyNoteManager.ReplaceAbsent, DailyNoteManager.ReplaceSkipping, DailyNoteManager.ReplaceAfterText and DailyNoteManager.NoNewPlaceholder. |
| DailyNoteManager.ReplaceSkipping | src/daily-notes/DailyNoteManager.ts:209-214 | Text in front in which no match starts is copied unchanged, and the replacing goes on after it. |
| DailyNoteManager.BraceFreeSkipped | src/daily-notes/DailyNoteManager.ts:209-214 | Brace-free text in front of a pattern that opens with a brace is copied unchanged. |
| DailyNoteManager.LoneBracesSkipped | src/daily-notes/DailyNoteManager.ts:209-214 | Text whose every `{` is followed by another character than `{` is copied unchanged in front of a pattern that opens with `{{`. |
| DailyNoteManager.ReplaceAbsent | src/daily-notes/DailyNoteManager.ts:209-214 | A global replace changes nothing when the pattern does not occur. |
| DailyNoteManager.ReplaceAfterText | src/daily-notes/DailyNoteManager.ts:209-214 | A pattern after text that cannot start it is replaced there, and the rest is replaced further on. |
| DailyNoteManager.NoNewPlaceholder | src/daily-notes/DailyNoteManager.ts:209-214 | Replacing with a text foreign to a placeholder (no braces, and some character the placeholder lacks) leaves no occurrence of the pattern replaced and creates no occurrence of that placeholder. |
| DailyNoteManager.PlainIsForeign | src/daily-notes/DailyNoteManager.ts:209-213 | A brace-free replacement with a digit or a capital is foreign to any placeholder made of braces and lower-case words. |
| DailyNoteManager.DateStringIsPlain | src/daily-notes/DailyNoteManager.ts:203 | The date string has no braces and contains a digit. |
| DailyNoteManager.WeekdayNamesArePlain | src/daily-notes/DailyNoteManager.ts:204 | A weekday name has no braces and a capital. |
| DailyNoteManager.MonthNamesArePlain | src/daily-notes/DailyNoteManager.ts:205 | A month name has no braces and a capital. |
| DailyNoteManager.YearStringIsPlain | src/daily-notes/DailyNoteManager.ts:207 | The year string has no braces and contains a digit. |
| DailyNoteManager.DateStringForeignToLast | src/daily-notes/DailyNoteManager.ts:203-214 | The date string, which contains a digit, is foreign to `{{date:YYYY-MM-DD}}`. |
| DailyNoteManager.ReplacementForeign | src/daily-notes/DailyNoteManager.ts:203-214 | Each value is foreign to each of the first four placeholders, and the date string to the fifth. |
| DailyNoteManager.FiveSteps | src/daily-notes/DailyNoteManager.ts:209-214 | The steps the lemmas reason about are the code's five `/g` replaces, in source order, with the date string, the weekday, the month name, the year and the date string again. |
| DailyNoteManager.ProcessTemplate | src/daily-notes/DailyNoteManager.ts:202-215 | None of the five placeholders, `{{date:YYYY-MM-DD}}` included, is left anywhere in the result. |
| DailyNoteManager.LaterStepsKeep | src/daily-notes/DailyNoteManager.ts:209-214 | The replacements after a placeholder's own step never bring it back. |
| DailyNoteManager.StepsRemove | src/daily-notes/DailyNoteManager.ts:209-214 | Once its own step has run, a placeholder never occurs again. |
| DailyNoteManager.ProcessTemplateUnchanged | src/daily-notes/DailyNoteManager.ts:209-214 | A template without placeholders is returned unchanged. |
| DailyNoteManager.PlaceholderNotPrefix | src/daily-notes/DailyNoteManager.ts:209-214 | No placeholder is a prefix of a later one, whatever follows it: `{{date}}` does not match the start of `{{date:YYYY-MM-DD}}`. |
| DailyNoteManager.PlaceholdersApart | src/daily-notes/DailyNoteManager.ts:209-214 | An earlier placeholder never starts anywhere inside a later one. |
| DailyNoteManager.StepRenders | src/daily-notes/DailyNoteManager.ts:209-214 | Each step turns every occurrence of its placeholder into its value and leaves the text and the other placeholders as they are. |
| DailyNoteManager.TemplateFilled | src/daily-notes/DailyNoteManager.ts:202-215 | A template made of placeholders and text with lone braces (no `{{`, no `{` at its end, as in `{a}` or a flat JSON object), each used any number of times, comes out as the same text with every placeholder replaced by its value: the date string, the weekday, the month name, the year or the date string again. |
| DailyNoteManager.ProcessOnePlaceholder | src/daily-notes/DailyNoteManager.ts:202-215 | Any one of the five placeholders between two texts with lone braces becomes its value, with the texts kept. |
| DailyNoteManager.BracedTextFilled | src/daily-notes/DailyNoteManager.ts:209-210 | The template `{a} {{date}}` becomes `{a} ` followed by the date string. |
| DailyNoteManager.FolderPrefixIsJoin | src/daily-notes/DailyNoteManager.ts:161-165 | The path built after `i + 1` parts is the first `i + 1` parts joined with `/`. |
| DailyNoteManager.LastFolderPrefix | src/daily-notes/DailyNoteManager.ts:161-171 | The last path visited is the whole folder path. |
| DailyNoteManager.PrefixWalkStep | src/daily-notes/DailyNoteManager.ts:165 | `current ? current/part : part` builds the next prefix. |
| DailyNoteManager.Manager.constructor | src/daily-notes/DailyNoteManager.ts:22-24 | The manager starts with the given configuration. |
| DailyNoteManager.Manager.UpdateConfig | src/daily-notes/DailyNoteManager.ts:22-24 | The configuration is replaced. |
| DailyNoteManager.Manager.ChooseContent | src/daily-notes/DailyNoteManager.ts:107-113 | The given content is kept unless it is empty, a template is configured and it loaded; then the processed template is used. |
| DailyNoteManager.Manager.WalkFolderPrefixes | src/daily-notes/DailyNoteManager.ts:161-171 | One visit per part, each the prefix so far, ending at the whole path; exactly the missing prefixes are created, and afterwards all visited are present. |
| DailyNoteManager.Manager.EnsureFolderExists | src/daily-notes/DailyNoteManager.ts:152-174 | Nothing is created for an existing folder; the folder alone when a direct create works; otherwise exactly the missing prefixes. |
| CalendarView.LeadingDigits | src/ui/CalendarView.ts:321 | The length of the maximal run of digits at the start. |
| CalendarView.IsListLine | src/ui/CalendarView.ts:321-323 | A line is a list line exactly when the list pattern (indentation, then a bullet followed by whitespace or the line's end, or digits, a dot and whitespace) has a match in it. |
| CalendarView.IndentKeepsListLine | src/ui/CalendarView.ts:321 | Adding indentation does not change whether a line is a list item. |
| CalendarView.BlankIsNotListLine | src/ui/CalendarView.ts:330 | A line that trims to nothing is not a list line. |
| CalendarView.IsCurrentLineInList | src/ui/CalendarView.ts:316-336 | True exactly when the pattern matches the line, or the line trims to nothing, it is not the first, and the pattern matches the line before it. |
| CalendarView.CurrentLineCases | src/ui/CalendarView.ts:316-336 | A blank line is in a list exactly when a list line precedes it; any other line exactly when it is a list line. |
| CalendarView.AdvanceLine | src/ui/CalendarView.ts:257-261 | Typing a text moves the cursor down one line per newline. |
| CalendarView.AdvanceTextLine | src/ui/CalendarView.ts:257-261 | After a text followed by a newline the cursor is at column 0, one line past the newlines inside the text. |
| CalendarView.FormatAll | src/ui/CalendarView.ts:245-251 | One formatted line per event, in order, with the same bullet choice. |
| CalendarView.InsertEventToNoteAsWritten | src/ui/CalendarView.ts:273-310 | Nothing without an editor; the cursor moves to the start of the next line, whatever was inserted. |
| CalendarView.InsertEventCursorAsWritten | src/ui/CalendarView.ts:297-303 | That cursor is at the end of the inserted text exactly when the text holds one newline. |
| CalendarView.InsertEventTitleWithNewline | src/ui/CalendarView.ts:297-303 | For a title with a line break the text ends two lines down, but the cursor stops one line down. |
| CalendarView.GetActiveNoteDate | src/ui/CalendarView.ts:127-139 | The date in the active note's name when one parses, today otherwise; always valid. |
| CalendarView.InsertAllOfOne | src/ui/CalendarView.ts:245-251 | The listing of one event is that event's line. |
| CalendarView.View.constructor | src/ui/CalendarView.ts:12-14 | No events, and the view shows today. |
| CalendarView.View.RefreshEvents | src/ui/CalendarView.ts:144-177 | The current day is refreshed; a successful fetch replaces the events, a failed one keeps them. |
| CalendarView.View.OnTimelineVisibleDayChanged | src/ui/CalendarView.ts:114-120 | Nothing happens for the same date; a new date becomes current and is refreshed once. |
| CalendarView.View.OnActiveFileChanged | src/ui/CalendarView.ts:94-108 | Ignored while the timeline is active; otherwise the active note's date is followed by the same rule. |
| CalendarView.View.InsertAllEventsToNote | src/ui/CalendarView.ts:223-268 | Nothing without events or an editor; otherwise the event lines joined by newlines plus one newline, at the cursor, and the new cursor is where that text ends. |
| CalendarView.View.InsertEventToNote | src/ui/CalendarView.ts:273-310 | Nothing without an editor; otherwise the event line plus a newline at the cursor, and the cursor is where the text ends. |
| TimelineView.Range | src/ui/TimelineView.ts:392 | The offsets `lo..hi` in order. |
| TimelineView.Missing | src/ui/TimelineView.ts:391-397 | Only computes; its meaning is stated by TimelineView.MissingSound, TimelineView.MissingComplete and TimelineView.MissingAllAbsent. |
| TimelineView.MissingSound | src/ui/TimelineView.ts:391-397 | The collected offsets lie in the range, none already rendered, strictly ascending. |
| TimelineView.MissingComplete | src/ui/TimelineView.ts:391-397 | Every offset of the range not yet rendered is collected. |
| TimelineView.MissingAllAbsent | src/ui/TimelineView.ts:391-397 | With none of them rendered, the whole range is collected. |
| TimelineView.Reverse | src/ui/TimelineView.ts:400-402 | The given offsets back to front. |
| TimelineView.Placed | src/ui/TimelineView.ts:400-419 | Only computes; its meaning is stated by TimelineView.PlacedPositions. |
| TimelineView.PlacedPositions | src/ui/TimelineView.ts:400-419 | Placed on top, the `i`-th offset ends `i` places above the old top, so the last placed is highest; placed below, the offsets follow the old days in order; the old days stay, in order. |
| TimelineView.AscendingReversal | src/ui/TimelineView.ts:400-402 | Ascending offsets and their reversal have no repeats and the same elements; reversing twice gives them back. |
| TimelineView.PendingOffsets | src/ui/TimelineView.ts:391-404 | The offsets handed to the second loop are distinct, unrendered, in either order. |
| TimelineView.MinOffset | src/ui/TimelineView.ts:344 | `Math.min` of a non-empty list: an element no larger than any. |
| TimelineView.MaxOffset | src/ui/TimelineView.ts:355 | `Math.max` of a non-empty list: an element no smaller than any. |
| TimelineView.PastDaysBefore | src/ui/TimelineView.ts:344-346 | The past batch is three consecutive offsets before every rendered one. |
| TimelineView.FutureDaysAfter | src/ui/TimelineView.ts:355-357 | The future batch is three consecutive offsets after every rendered one. |
| TimelineView.ThreeMissing | src/ui/TimelineView.ts:391-397 | Three unrendered consecutive offsets are all collected. |
| TimelineView.RunIsRange | src/ui/TimelineView.ts:343-360 | A non-empty unbroken run is exactly the range from its first offset to its last. |
| TimelineView.RunBounds | src/ui/TimelineView.ts:344-355 | A run starts at its minimum and ends at its maximum. |
| TimelineView.PastContiguous | src/ui/TimelineView.ts:343-349 | Loading the past keeps the window one unbroken ascending run, three days earlier at the top. |
| TimelineView.FutureContiguous | src/ui/TimelineView.ts:354-360 | Loading the future keeps the window one unbroken ascending run, three days later at the bottom. |
| TimelineView.InitialWindow | src/ui/TimelineView.ts:148 | The opening window is offsets -3..6, an unbroken run. |
| TimelineView.DistinctAdd | src/ui/TimelineView.ts:394-395 | Adding an unrendered offset at either end keeps the window free of repeats. |
| TimelineView.GetDateFromOffset | src/ui/TimelineView.ts:444-448 | The reference date moved by the offset, with month and year carried. |
| TimelineView.NewYearWindow | src/ui/TimelineView.ts:444-448 | Around 1 January 2025 the window spans 29 December 2024 to 7 January 2025. |
| TimelineView.TopMostUnique | src/ui/TimelineView.ts:226-242 | At most one entry is the top-most. |
| TimelineView.TopMostEntry | src/ui/TimelineView.ts:226-242 | None exactly when no entry intersects with its top above 200 px; otherwise the first entry closest to the top among those. |
| TimelineView.Timeline.constructor | src/ui/TimelineView.ts:11-31 | Closed, empty, not rendering, nothing focused, with today as reference date. |
| TimelineView.Timeline.CollectOffsets | src/ui/TimelineView.ts:391-397 | The first loop collects the offsets of the range that have no section yet, in ascending order. |
| TimelineView.Timeline.AddSection | src/ui/TimelineView.ts:404-435 | One new section, dated reference plus offset, on top or at the end of the container; nothing else changes. |
| TimelineView.Timeline.PlaceSections | src/ui/TimelineView.ts:404-435 | All given offsets get sections; the container becomes their reversal above the old one, or the old one followed by them. |
| TimelineView.Timeline.FillDays | src/ui/TimelineView.ts:391-435 | Both loops: the missing offsets get sections, shown ascending above or below the old days. |
| TimelineView.Timeline.RenderDays | src/ui/TimelineView.ts:368-439 | Nothing when closed or when an extension meets a running render; otherwise (after clearing, for replace) the missing offsets are added at the end or, for prepend, ascending at the top, and the flag is cleared. |
| TimelineView.Timeline.LoadMorePast | src/ui/TimelineView.ts:343-349 | The three days before the earliest shown are added at the top, unless the guard drops the call. |
| TimelineView.Timeline.LoadMoreFuture | src/ui/TimelineView.ts:354-360 | The three days after the latest shown are added at the bottom, unless the guard drops the call. |
| TimelineView.Timeline.OnScroll | src/ui/TimelineView.ts:322-338 | Near the top the past is loaded, else near the bottom the future, and the render flag ends cleared; when closed, while a render runs or away from both edges nothing changes, the flag included; the reference date, the visible day, the announcements and both focus offsets are kept; an unbroken window stays unbroken. |
| TimelineView.Timeline.OnVisibleDayChanged | src/ui/TimelineView.ts:278-281 | The date is announced once; nothing else changes. |
| TimelineView.Timeline.OnIntersection | src/ui/TimelineView.ts:198-265 | While the focused day intersects nothing changes; otherwise the lock is released and the top-most day becomes visible, announced only when its date is new. |
| TimelineView.Timeline.OnEditorClick | src/ui/TimelineView.ts:286-317 | A click on a rendered day locks focus on it, remembers it, and makes it the visible day, announced only when new; other clicks change nothing. |
| TimelineView.Timeline.GoToDate | src/ui/TimelineView.ts:663-691 | The target becomes the reference; when open the window is rebuilt as -3..6 with matching dates; the target is announced. |
| TimelineView.Timeline.ScrollToToday | src/ui/TimelineView.ts:476-481 | Going to today: today is the reference, visible and announced once; when open the window is rebuilt as -3..6 with each section dated today plus its offset and the render flag cleared; when closed no section; both focus offsets are kept. |
| TimelineView.Timeline.OnOpen | src/ui/TimelineView.ts:56-178 | The view opens on today with offsets -3..6 rendered in order, each section dated today plus its offset, the render flag cleared, today announced once, and both focus offsets kept. |
| TimelineView.Timeline.LastFocusedSection | src/ui/TimelineView.ts:708-716 | The last clicked day's section while it is rendered, showing the reference date moved by its offset. |

## Left out

- OAuth, token handling, the settings tab, plugin start-up (`main.ts`), the embedded editor leaves and the insides of a day section (`DaySection`) are not part of this model. A day section is reduced to its date.
- `testConnection` and the Calendar request itself are network calls. The request's outcome is a parameter of `GoogleCalendarApi.GetEventsForDate`.
- The DOM, pixel measurements, `scrollTo`/`scrollTop`, the calendar picker, headers, buttons and notices are left out. The scroll metrics and observer entries are parameters.
- Asynchronous interleaving is not modelled. Calls run to completion one after another. The one interleaving that changes state is kept: when `onScroll` asks for both ends, the past render is still running, so its guard drops the future one. `TimelineView.Timeline.OnScroll` models this as an if/else.
- The 100 ms delay of the first announcement in `onOpen` (`setTimeout`, src/ui/TimelineView.ts:167-169) is dropped: `TimelineView.Timeline.OnOpen` makes that announcement at once, as its last step. Nothing else runs in between in this model, so only the delay is lost.
- `onClose`, the refresh timer and `scrollToDay` are left out, because they only tear down, schedule or scroll.
- Weekday and month names use fixed en-US tables instead of `toLocaleDateString`. Time zones, `toISOString` and `formatTime` are left out. `DateUtils.GetDateRange` returns local wall-clock bounds.
- Upper- and lower-casing cover ASCII letters only. `WikiLinkFormatter.ToUpper` and `WikiLinkFormatter.ToLower` leave every other character unchanged.
- An exception thrown while a day section renders would abort the rest of a `renderDays` batch. Section rendering cannot fail in this model.
- TimelineView.Timeline.LoadMorePast requires a non-empty window whenever the render would go ahead. On an empty window the code computes `Math.min()` of nothing (`Infinity`), and its collecting loop then never terminates. `TimelineView.Timeline.LoadMoreFuture` has the same requirement for the same reason, and so does `TimelineView.Timeline.OnScroll`.
- A `createFolder` that fails inside the recursive walk of `ensureFolderExists` is left out. The vault is a set of present folders, plus a flag saying whether the direct `createFolder` fails.
- The vault operations `exists`, `getFile`, `loadContent`, `save`, `loadTemplate` and the final `vault.create` are I/O. Their outcomes are parameters, as in `DailyNoteManager.Manager.ChooseContent`.
- The `dateFormat` setting is stored but never read, as in the code: filenames always use `year-MM-DD`.
- DailyNoteManager.Manager.EnsureFolderExists states the walk's result only for folder paths that do not start with a slash. `create` only calls it with a cleaned folder, which never does.
- DailyNoteManager.TemplateFilled and DailyNoteManager.ProcessOnePlaceholder state the values only for literal text whose braces are lone (no `{{`, no `{` at its end). `processTemplate` runs on any template, but there a stray brace can join neighbouring text into a placeholder: the literal `{{` followed by the literal `date}}` is itself `{{date}}`. `DailyNoteManager.ProcessTemplate` still guarantees, for every template, that no placeholder is left.
- A note is modelled as lines separated by `'\n'` only. `CalendarView.Advance` and the cursor claims built on it (`CalendarView.View.InsertEventToNote`, `CalendarView.View.InsertAllEventsToNote`, the corrected cursor of the src/ui/CalendarView.ts:300-303 finding) do not treat `"\r\n"` or `"\r"` as line breaks, which the editor does for a title that contains `'\r'`.
- DateUtils.ParseFormatted is stated for four-digit years only, because the filename pattern reads exactly four year digits.

## Findings

| source | as written | input that shows it | evidently intended | confidence | as-written member | corrected member |
|---|---|---|---|---|---|---|
| src/utils/DateUtils.ts:14-15 | Both bounds are rebuilt with `new Date(year, month, day, …)`, which reads a year 0..99 as 1900..1999. | A date in the year 50, such as 1 March 50 | Bounds on the given date itself | not executed | DateUtils.DateRangeYearFifty | DateUtils.GetDateRange |
| src/ui/CalendarView.ts:300-303 | After inserting one event, the cursor goes exactly one line down. | An event titled `A\nB`: the text ends two lines down | The cursor at the end of the inserted text, as in `insertAllEventsToNote` | not executed | CalendarView.InsertEventTitleWithNewline | CalendarView.View.InsertEventToNote |
| src/daily-notes/DailyNoteManager.ts:40-48 | The empty-or-root test comes before the slashes are stripped. | Folder `//`: the path is `/2024-01-01.md` | The filename alone, a vault-relative path | not executed | DailyNoteManager.PathOfSlashesFolder | DailyNoteManager.GetPathForDate |
