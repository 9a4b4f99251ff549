/**
 * `DailyNoteManager`: where the note of a day lives (filename and folder path), the
 * placeholder substitution applied to a template, the choice of initial content when a note
 * is created, and the prefix walk that creates a missing folder one level at a time.
 */
module DailyNoteManager {
  import opened Wrappers
  import opened CalendarDate
  import opened Text
  import opened DateUtils

  /** The manager's settings; an absent or empty template path means "no template". */
  datatype Config = Config(folder: string, dateFormat: string, templatePath: Option<string>)

  // ---------------------------------------------------------------------------
  // Filenames and paths

  /** `getFilenameForDate`: the `formatDateString` rendering plus `.md`; `dateFormat` is not consulted. */
  function GetFilenameForDate(d: Date): (r: string)
    requires ValidDate(d)
    ensures EndsWith(r, ".md") && r[..|r| - 3] == FormatDateString(d)
  {
    var r := FormatDateString(d) + ".md";
    assert r[|r| - 3..] == ".md";
    r
  }

  /** The filename of a date with a four-digit year reads back as that date. */
  lemma FilenameRoundTrip(d: Date)
    requires ValidDate(d) && 1000 <= d.year <= 9999
    ensures ParseDateFromFilename(GetFilenameForDate(d)) == Some(d)
    ensures IsDailyNoteFilename(GetFilenameForDate(d))
  {
    ParseFormatted(d, true);
  }

  /** `replace(/^\/+/, '')`: every leading `/` removed. */
  function StripLeadingSlashes(s: string): (r: string)
    ensures |r| <= |s| && r == s[|s| - |r|..]
    ensures forall i :: 0 <= i < |s| - |r| ==> s[i] == '/'
    ensures r == [] || r[0] != '/'
  {
    if s != [] && s[0] == '/' then StripLeadingSlashes(s[1..]) else s
  }

  /** `replace(/\/+$/, '')`: every trailing `/` removed. */
  function StripTrailingSlashes(s: string): (r: string)
    ensures |r| <= |s| && r == s[..|r|]
    ensures forall i :: |r| <= i < |s| ==> s[i] == '/'
    ensures r == [] || r[|r| - 1] != '/'
  {
    if s != [] && s[|s| - 1] == '/' then StripTrailingSlashes(s[..|s| - 1]) else s
  }

  /** The folder with its surrounding whitespace and then its leading and trailing slashes removed. */
  function CleanFolder(folder: string): (r: string)
    ensures r == [] || (r[0] != '/' && r[|r| - 1] != '/')
  {
    var clean := StripTrailingSlashes(StripLeadingSlashes(Trim(folder)));
    assert clean != [] ==> clean[0] == StripLeadingSlashes(Trim(folder))[0];
    clean
  }

  /**
   * `getPathForDate` as written: the filename alone when the trimmed folder is empty or `/`,
   * otherwise the cleaned folder, a `/`, and the filename, even when cleaning leaves nothing.
   */
  function GetPathForDateAsWritten(config: Config, d: Date): (r: string)
    requires ValidDate(d)
    ensures EndsWith(r, GetFilenameForDate(d))
  {
    var filename := GetFilenameForDate(d);
    var folder := Trim(config.folder);
    if folder == "" || folder == "/" then filename
    else
      var r := CleanFolder(config.folder) + "/" + filename;
      assert r[|r| - |filename|..] == filename;
      r
  }

  /** A folder of two slashes survives trimming, is neither empty nor `/`, and cleans to nothing. */
  lemma TwoSlashesFolder()
    ensures Trim("//") == "//" && CleanFolder("//") == []
  {
    var s := "//";
    assert !IsJsWhitespace(s[0]) && !IsJsWhitespace(s[1]);
    assert TrimStart(s) == s;
    assert TrimEnd(s) == s;
    assert s[1..] == "/" && s[1..][1..] == [];
    assert StripLeadingSlashes(s) == [];
  }

  /** A folder made of two slashes puts the note at `/<date>.md`, a path starting with a slash. */
  lemma PathOfSlashesFolder(d: Date)
    requires ValidDate(d)
    ensures GetPathForDateAsWritten(Config("//", "YYYY-MM-DD", None), d) == "/" + GetFilenameForDate(d)
    ensures GetPathForDate(Config("//", "YYYY-MM-DD", None), d) == GetFilenameForDate(d)
  {
    TwoSlashesFolder();
    EmptyFolderJoin(GetFilenameForDate(d));
  }

  /** An empty folder in front of `/` leaves just the slash. */
  lemma EmptyFolderJoin(filename: string)
    ensures [] + "/" + filename == "/" + filename
  {
  }

  /**
   * `getPathForDate` as intended: the filename alone when no folder is left after cleaning,
   * otherwise `<folder>/<filename>` with the folder free of leading and trailing slashes.
   */
  function GetPathForDate(config: Config, d: Date): (r: string)
    requires ValidDate(d)
    ensures var filename, clean := GetFilenameForDate(d), CleanFolder(config.folder);
            EndsWith(r, filename)
            && r[0] != '/'
            && (clean == [] ==> r == filename)
            && (clean != [] ==> r == clean + "/" + filename)
  {
    var filename := GetFilenameForDate(d);
    var clean := CleanFolder(config.folder);
    assert filename[0] == FormatDateString(d)[0];
    if clean == [] then filename
    else
      var r := clean + "/" + filename;
      assert r[|r| - |filename|..] == filename;
      r
  }

  /** Whenever the trimmed folder is not made of slashes only, the written and intended paths agree. */
  lemma PathsAgree(config: Config, d: Date)
    requires ValidDate(d)
    requires CleanFolder(config.folder) != [] || Trim(config.folder) == [] || Trim(config.folder) == "/"
    ensures GetPathForDateAsWritten(config, d) == GetPathForDate(config, d)
  {
    var t := Trim(config.folder);
    var filename := GetFilenameForDate(d);
    if t == [] || t == "/" {
      assert StripLeadingSlashes(t) == [] by {
        if t == "/" {
          assert t[1..] == [];
        }
      }
      assert CleanFolder(config.folder) == [];
      assert GetPathForDate(config, d) == filename;
      assert GetPathForDateAsWritten(config, d) == filename;
    } else {
      assert CleanFolder(config.folder) != [];
      assert GetPathForDateAsWritten(config, d) == CleanFolder(config.folder) + "/" + filename;
    }
  }

  // ---------------------------------------------------------------------------
  // Template placeholders

  /** `t.replace(/p/g, rep)` for a literal pattern: matches taken left to right, never overlapping. */
  function ReplaceAll(t: string, p: string, rep: string): string
    requires p != []
    decreases |t|
  {
    if |t| < |p| then t
    else if t[..|p|] == p then rep + ReplaceAll(t[|p|..], p, rep)
    else [t[0]] + ReplaceAll(t[1..], p, rep)
  }


  /** `q` occurs in `t` at position `i`. */
  predicate OccursAt(t: string, q: string, i: int) {
    0 <= i <= |t| - |q| && t[i..i + |q|] == q
  }

  /** `q` occurs in `t`. */
  predicate Occurs(t: string, q: string) {
    exists i :: 0 <= i <= |t| && OccursAt(t, q, i)
  }

  /** A shift of an occurrence in a suffix is an occurrence in the whole. */
  lemma OccursInSuffix(t: string, k: nat, q: string)
    requires k <= |t| && Occurs(t[k..], q)
    ensures Occurs(t, q)
  {
    var i :| 0 <= i <= |t[k..]| && OccursAt(t[k..], q, i);
    assert t[k + i..k + i + |q|] == q;
    assert OccursAt(t, q, k + i);
  }

  /** Without an occurrence of the pattern, replacing changes nothing. */
  lemma {:induction false} ReplaceAbsent(t: string, p: string, rep: string)
    requires p != [] && !Occurs(t, p)
    ensures ReplaceAll(t, p, rep) == t
    decreases |t|
  {
    if |t| >= |p| {
      assert !OccursAt(t, p, 0);
      if Occurs(t[1..], p) {
        OccursInSuffix(t, 1, p);
      }
      ReplaceAbsent(t[1..], p, rep);
    }
  }

  /** Where no match starts at the front, the first character is copied. */
  lemma CopyFirst(t: string, p: string, rep: string)
    requires p != [] && t != [] && !OccursAt(t, p, 0)
    ensures ReplaceAll(t, p, rep) == [t[0]] + ReplaceAll(t[1..], p, rep)
  {
    if |t| < |p| {
      assert t == [t[0]] + t[1..];
    }
  }

  /** An occurrence in the tail is an occurrence in the whole, one place later. */
  lemma OccursShift(t: string, p: string, i: int)
    requires t != [] && OccursAt(t[1..], p, i)
    ensures OccursAt(t, p, i + 1)
  {
    assert t[1..][i..i + |p|] == t[i + 1..i + 1 + |p|];
  }

  /** Text in front in which no match starts is copied as it is. */
  lemma {:induction false} ReplaceSkipping(a: string, b: string, p: string, rep: string)
    requires p != [] && forall i :: 0 <= i < |a| ==> !OccursAt(a + b, p, i)
    ensures ReplaceAll(a + b, p, rep) == a + ReplaceAll(b, p, rep)
    decreases |a|
  {
    if a == [] {
      assert a + b == b;
    } else {
      var t := a + b;
      CopyFirst(t, p, rep);
      assert t[1..] == a[1..] + b;
      forall i | 0 <= i < |a[1..]| ensures !OccursAt(a[1..] + b, p, i) {
        if OccursAt(t[1..], p, i) {
          OccursShift(t, p, i);
        }
      }
      ReplaceSkipping(a[1..], b, p, rep);
      assert a == [a[0]] + a[1..];
    }
  }

  /** Brace-free text in front of a pattern that opens with a brace is copied as it is. */
  lemma BraceFreeSkipped(a: string, b: string, p: string, rep: string)
    requires p != [] && p[0] == '{' && '{' !in a
    ensures ReplaceAll(a + b, p, rep) == a + ReplaceAll(b, p, rep)
  {
    forall i | 0 <= i < |a| ensures !OccursAt(a + b, p, i) {
      assert a[i] in a;
      if i <= |a + b| - |p| {
        assert (a + b)[i..i + |p|][0] == a[i];
      }
    }
    ReplaceSkipping(a, b, p, rep);
  }

  /** Text with lone braces in front of a pattern that opens with two braces is copied as it is. */
  lemma LoneBracesSkipped(a: string, b: string, p: string, rep: string)
    requires |p| >= 2 && p[0] == '{' && p[1] == '{' && LoneBraces(a)
    ensures ReplaceAll(a + b, p, rep) == a + ReplaceAll(b, p, rep)
  {
    forall i | 0 <= i < |a| ensures !OccursAt(a + b, p, i) {
      if i <= |a + b| - |p| {
        var w := (a + b)[i..i + |p|];
        assert w[0] == a[i];
        if a[i] == '{' {
          assert w[1] == a[i + 1];
        }
      }
    }
    ReplaceSkipping(a, b, p, rep);
  }

  /** Text that cannot start the pattern is copied; the pattern itself becomes the replacement. */
  lemma ReplaceAfterText(x: string, p: string, rep: string, y: string)
    requires p != [] && p[0] !in x
    ensures ReplaceAll(x + p + y, p, rep) == x + rep + ReplaceAll(y, p, rep)
  {
    forall i | 0 <= i < |x| ensures !OccursAt(x + (p + y), p, i) {
      assert x[i] in x;
      if i <= |x + (p + y)| - |p| {
        assert (x + (p + y))[i..i + |p|][0] == x[i];
      }
    }
    ReplaceSkipping(x, p + y, p, rep);
    assert (p + y)[..|p|] == p && (p + y)[|p|..] == y;
    assert x + p + y == x + (p + y);
  }

  /** A placeholder-like text: at least two characters, with braces at both ends. */
  predicate Braced(q: string) {
    |q| >= 2 && q[0] == '{' && q[|q| - 1] == '}'
  }

  /** A replacement that cannot make up any part of `q`: no braces, and a character `q` lacks. */
  predicate ForeignTo(rep: string, q: string) {
    (forall i :: 0 <= i < |rep| ==> rep[i] != '{' && rep[i] != '}')
    && exists k :: 0 <= k < |rep| && rep[k] !in q
  }

  /** A placeholder of lower-case words: braces around characters that are neither digits nor capitals. */
  predicate PlaceholderShape(q: string) {
    |q| >= 2 && q[0] == '{' && q[|q| - 1] == '}'
    && forall i :: 0 <= i < |q| ==> !IsDigit(q[i]) && !('A' <= q[i] <= 'Z')
  }

  /** A replacement text: no braces, and at least one digit or capital. */
  predicate PlainReplacement(rep: string) {
    (forall i :: 0 <= i < |rep| ==> rep[i] != '{' && rep[i] != '}')
    && exists k :: 0 <= k < |rep| && (IsDigit(rep[k]) || 'A' <= rep[k] <= 'Z')
  }

  /** Such a placeholder has braces at its ends, and a plain replacement is foreign to it. */
  lemma PlainIsForeign(rep: string, q: string)
    requires PlainReplacement(rep) && PlaceholderShape(q)
    ensures Braced(q) && ForeignTo(rep, q)
  {
    var k :| 0 <= k < |rep| && (IsDigit(rep[k]) || 'A' <= rep[k] <= 'Z');
    assert rep[k] !in q;
  }

  /** A foreign text, whatever follows it, does not start with a tail of the placeholder. */
  lemma PlainBlocksTail(rep: string, z: string, q: string, w: string)
    requires Braced(q) && ForeignTo(rep, q)
    requires w != [] && w[|w| - 1] == '}' && forall j :: 0 <= j < |w| ==> w[j] in q
    ensures !StartsWith(rep + z, w)
  {
    if |w| <= |rep| + |z| {
      if |w| <= |rep| {
        assert (rep + z)[..|w|][|w| - 1] == rep[|w| - 1];
      } else {
        var k :| 0 <= k < |rep| && rep[k] !in q;
        assert (rep + z)[..|w|][k] == rep[k];
      }
    }
  }

  /** If the result of replacing starts with a tail of a placeholder, so did the input. */
  lemma {:induction false} ReplacedStartsWith(u: string, p: string, rep: string, q: string, w: string)
    requires p != [] && Braced(q) && ForeignTo(rep, q)
    requires w != [] && w[|w| - 1] == '}' && forall j :: 0 <= j < |w| ==> w[j] in q
    ensures StartsWith(ReplaceAll(u, p, rep), w) ==> StartsWith(u, w)
    decreases |u|
  {
    var r := ReplaceAll(u, p, rep);
    if |u| >= |p| {
      if u[..|p|] == p {
        PlainBlocksTail(rep, ReplaceAll(u[|p|..], p, rep), q, w);
      } else if |w| > 1 {
        assert r == [u[0]] + ReplaceAll(u[1..], p, rep);
        var w' := w[1..];
        assert w'[|w'| - 1] == '}';
        forall j | 0 <= j < |w'| ensures w'[j] in q {
          assert w'[j] == w[j + 1];
        }
        ReplacedStartsWith(u[1..], p, rep, q, w');
        if StartsWith(r, w) {
          var r' := ReplaceAll(u[1..], p, rep);
          assert r'[..|w'|] == r[1..|w|] == w';
          assert StartsWith(u[1..], w');
          assert u[0] == r[0] == w[0];
          assert u[..|w|] == [u[0]] + u[1..][..|w'|];
        }
      }
    }
  }

  /** A foreign text in front cannot start the placeholder. */
  lemma PlainPrefixKeepsAbsent(rep: string, r: string, q: string)
    requires Braced(q) && ForeignTo(rep, q) && !Occurs(r, q)
    ensures !Occurs(rep + r, q)
  {
    var x := rep + r;
    forall i | 0 <= i <= |x| ensures !OccursAt(x, q, i) {
      if i <= |x| - |q| {
        if i < |rep| {
          assert x[i..i + |q|][0] == rep[i];
        } else {
          assert x[i..i + |q|] == r[i - |rep|..i - |rep| + |q|];
          assert !OccursAt(r, q, i - |rep|);
        }
      }
    }
  }

  /** One character in front of a text without `q` can only start an occurrence at the front. */
  lemma ConsKeepsTailAbsent(c: char, r: string, q: string)
    requires !Occurs(r, q)
    ensures forall i :: 1 <= i <= |[c] + r| ==> !OccursAt([c] + r, q, i)
  {
    var x := [c] + r;
    forall i | 1 <= i <= |x| && i <= |x| - |q| ensures !OccursAt(x, q, i) {
      assert x[i..i + |q|] == r[i - 1..i - 1 + |q|];
      assert !OccursAt(r, q, i - 1);
    }
  }

  /** A character copied in front starts a placeholder only if the input already started with one. */
  lemma CopiedCharStartsWith(t: string, p: string, rep: string, q: string)
    requires p != [] && Braced(q) && ForeignTo(rep, q) && t != []
    ensures StartsWith([t[0]] + ReplaceAll(t[1..], p, rep), q) ==> StartsWith(t, q)
  {
    var r' := ReplaceAll(t[1..], p, rep);
    var r := [t[0]] + r';
    var w := q[1..];
    forall j | 0 <= j < |w| ensures w[j] in q {
      assert w[j] == q[j + 1];
    }
    ReplacedStartsWith(t[1..], p, rep, q, w);
    if StartsWith(r, q) {
      assert r'[..|w|] == r[1..|q|] == w;
      assert t[..|q|] == [t[0]] + t[1..][..|w|];
    }
  }

  /** So a copied character cannot create an occurrence at the front. */
  lemma CopiedCharNotAtFront(t: string, p: string, rep: string, q: string)
    requires p != [] && Braced(q) && ForeignTo(rep, q)
    requires |t| >= |p| && t[..|p|] != p && (q == p || !Occurs(t, q))
    ensures !OccursAt([t[0]] + ReplaceAll(t[1..], p, rep), q, 0)
  {
    assert !OccursAt(t, q, 0);
    CopiedCharStartsWith(t, p, rep, q);
  }

  /** A character copied in front can only complete a placeholder the input already had there. */
  lemma CopiedCharKeepsAbsent(t: string, p: string, rep: string, q: string)
    requires p != [] && Braced(q) && ForeignTo(rep, q)
    requires |t| >= |p| && t[..|p|] != p && (q == p || !Occurs(t, q))
    requires !Occurs(ReplaceAll(t[1..], p, rep), q)
    ensures !Occurs([t[0]] + ReplaceAll(t[1..], p, rep), q)
  {
    var r := [t[0]] + ReplaceAll(t[1..], p, rep);
    ConsKeepsTailAbsent(t[0], ReplaceAll(t[1..], p, rep), q);
    CopiedCharNotAtFront(t, p, rep, q);
    assert forall i :: 0 <= i <= |r| ==> !OccursAt(r, q, i);
  }

  /**
   * Replacing by a text foreign to `q` never creates an occurrence of `q`, and leaves none of
   * the pattern being replaced.
   */
  lemma {:induction false} NoNewPlaceholder(t: string, p: string, rep: string, q: string)
    requires p != [] && Braced(q) && ForeignTo(rep, q)
    requires q == p || !Occurs(t, q)
    ensures !Occurs(ReplaceAll(t, p, rep), q)
    decreases |t|
  {
    if |t| < |p| {
      assert ReplaceAll(t, p, rep) == t;
    } else if t[..|p|] == p {
      var t' := t[|p|..];
      if q != p && Occurs(t', q) {
        OccursInSuffix(t, |p|, q);
      }
      NoNewPlaceholder(t', p, rep, q);
      PlainPrefixKeepsAbsent(rep, ReplaceAll(t', p, rep), q);
    } else {
      var t' := t[1..];
      if q != p && Occurs(t', q) {
        OccursInSuffix(t, 1, q);
      }
      NoNewPlaceholder(t', p, rep, q);
      CopiedCharKeepsAbsent(t, p, rep, q);
    }
  }

  /** The rendering of the year, `String(year)`. */
  function YearString(d: Date): string {
    IntToString(d.year)
  }

  /**
   * `processTemplate`: `{{date}}`, `{{day}}`, `{{month}}`, `{{year}}` and then
   * `{{date:YYYY-MM-DD}}` replaced, each everywhere, in that order.
   */
  function ProcessTemplate(template: string, d: Date): (r: string)
    requires ValidDate(d)
    ensures forall k :: 0 <= k < |Placeholders| ==> !Occurs(r, Placeholders[k])
  {
    var dateStr := FormatDateString(d);
    var t1 := ReplaceAll(template, "{{date}}", dateStr);
    var t2 := ReplaceAll(t1, "{{day}}", WeekdayName(d));
    var t3 := ReplaceAll(t2, "{{month}}", MonthName(d));
    var t4 := ReplaceAll(t3, "{{year}}", YearString(d));
    var t5 := ReplaceAll(t4, "{{date:YYYY-MM-DD}}", dateStr);
    assert forall k :: 0 <= k < |Placeholders| ==> !Occurs(t5, Placeholders[k]) by {
      FiveSteps(template, d);
      forall k | 0 <= k < |Placeholders| ensures !Occurs(t5, Placeholders[k]) {
        StepsRemove(template, d, 0, k);
      }
    }
    t5
  }

  /** The five placeholders, in the order they are replaced. */
  const Placeholders: seq<string> := ["{{date}}", "{{day}}", "{{month}}", "{{year}}", "{{date:YYYY-MM-DD}}"]

  /** The date rendering is a plain replacement. */
  lemma DateStringIsPlain(d: Date)
    requires ValidDate(d)
    ensures PlainReplacement(FormatDateString(d))
  {
    var s := FormatDateString(d);
    assert IsDigit(s[|s| - 1]) by {
      assert s[|s| - 2..][1] == s[|s| - 1];
    }
  }

  /** The year rendering is a plain replacement. */
  lemma YearStringIsPlain(d: Date)
    ensures PlainReplacement(YearString(d))
  {
    var y := YearString(d);
    if d.year < 0 {
      assert y[1..][0] == y[1];
      assert IsDigit(y[1]);
      forall i | 0 <= i < |y| ensures y[i] != '{' && y[i] != '}' {
        if i > 0 {
          assert y[1..][i - 1] == y[i];
        }
      }
    } else {
      assert IsDigit(y[0]);
    }
  }

  /** Every weekday name is a plain replacement. */
  lemma WeekdayNamesArePlain(d: Date)
    requires ValidDate(d)
    ensures PlainReplacement(WeekdayName(d))
  {
    var w := Weekday(d);
    var n := WeekdayNames[w];
    assert 'A' <= n[0] <= 'Z' by {
      assert w == 0 || w == 1 || w == 2 || w == 3 || w == 4 || w == 5 || w == 6;
    }
    assert forall i :: 0 <= i < |n| ==> 'A' <= n[i] <= 'z' by {
      assert w == 0 || w == 1 || w == 2 || w == 3 || w == 4 || w == 5 || w == 6;
    }
  }

  /** Every month name is a plain replacement. */
  lemma MonthNamesArePlain(d: Date)
    requires ValidDate(d)
    ensures PlainReplacement(MonthName(d))
  {
    var m := d.month - 1;
    var n := MonthNames[m];
    assert 'A' <= n[0] <= 'Z' && forall i :: 0 <= i < |n| ==> 'A' <= n[i] <= 'z' by {
      assert m == 0 || m == 1 || m == 2 || m == 3 || m == 4 || m == 5
          || m == 6 || m == 7 || m == 8 || m == 9 || m == 10 || m == 11;
    }
  }

  /** The four placeholders that are checked afterwards have the placeholder shape. */
  lemma PlaceholderShapes(k: nat)
    requires k < 4
    ensures PlaceholderShape(Placeholders[k])
  {
    var q := Placeholders[k];
    assert forall i :: 0 <= i < |q| ==> 'a' <= q[i] <= 'y' || q[i] == '{' || q[i] == '}' by {
      assert k == 0 || k == 1 || k == 2 || k == 3;
    }
  }

  /** The text that replaces the placeholder of step `k`. */
  function Replacement(d: Date, k: nat): string
    requires ValidDate(d) && k < 5
  {
    if k == 0 || k == 4 then FormatDateString(d)
    else if k == 1 then WeekdayName(d)
    else if k == 2 then MonthName(d)
    else YearString(d)
  }

  lemma ReplacementIsPlain(d: Date, k: nat)
    requires ValidDate(d) && k < 5
    ensures PlainReplacement(Replacement(d, k))
  {
    if k == 0 || k == 4 {
      DateStringIsPlain(d);
    } else if k == 1 {
      WeekdayNamesArePlain(d);
    } else if k == 2 {
      MonthNamesArePlain(d);
    } else {
      YearStringIsPlain(d);
    }
  }

  /** The replacement steps from step `from` on, in order. */
  function ProcessSteps(t: string, d: Date, from: nat): string
    requires ValidDate(d) && from <= 5
    decreases 5 - from
  {
    if from == 5 then t
    else ProcessSteps(ReplaceAll(t, Placeholders[from], Replacement(d, from)), d, from + 1)
  }

  /** The five steps, written out as `processTemplate` makes them. */
  lemma FiveSteps(template: string, d: Date)
    requires ValidDate(d)
    ensures var dateStr := FormatDateString(d);
            ProcessSteps(template, d, 0)
            == ReplaceAll(ReplaceAll(ReplaceAll(ReplaceAll(ReplaceAll(template, "{{date}}", dateStr),
                 "{{day}}", WeekdayName(d)), "{{month}}", MonthName(d)), "{{year}}", YearString(d)),
                 "{{date:YYYY-MM-DD}}", dateStr)
  {
    var t1 := ReplaceAll(template, Placeholders[0], Replacement(d, 0));
    var t2 := ReplaceAll(t1, Placeholders[1], Replacement(d, 1));
    var t3 := ReplaceAll(t2, Placeholders[2], Replacement(d, 2));
    var t4 := ReplaceAll(t3, Placeholders[3], Replacement(d, 3));
    var t5 := ReplaceAll(t4, Placeholders[4], Replacement(d, 4));
    assert ProcessSteps(t4, d, 4) == t5;
    assert ProcessSteps(t3, d, 3) == t5;
    assert ProcessSteps(t2, d, 2) == t5;
    assert ProcessSteps(t1, d, 1) == t5;
  }

  /** The last placeholder has braces at its ends, and the date rendering (it has digits) is foreign to it. */
  lemma DateStringForeignToLast(d: Date)
    requires ValidDate(d)
    ensures Braced(Placeholders[4]) && ForeignTo(FormatDateString(d), Placeholders[4])
  {
    var s := FormatDateString(d);
    var q := Placeholders[4];
    DateStringIsPlain(d);
    assert IsDigit(s[|s| - 1]) by {
      assert s[|s| - 2..][1] == s[|s| - 1];
    }
    assert forall i :: 0 <= i < |q| ==> !IsDigit(q[i]);
    assert s[|s| - 1] !in q;
  }

  /**
   * The replacement of step `j` is foreign to placeholder `k`, for the pairs the steps need:
   * any step against one of the first four placeholders, and the last step against its own.
   */
  lemma ReplacementForeign(d: Date, j: nat, k: nat)
    requires ValidDate(d) && j < 5 && k < 5 && (k < 4 || j == 4)
    ensures Braced(Placeholders[k]) && ForeignTo(Replacement(d, j), Placeholders[k])
  {
    if k < 4 {
      PlaceholderShapes(k);
      ReplacementIsPlain(d, j);
      PlainIsForeign(Replacement(d, j), Placeholders[k]);
    } else {
      DateStringForeignToLast(d);
    }
  }

  /** The replacements made from step `from` on cannot bring back an absent earlier placeholder. */
  lemma {:induction false} LaterStepsKeep(t: string, d: Date, k: nat, from: nat)
    requires ValidDate(d) && k < from <= 5 && !Occurs(t, Placeholders[k])
    ensures !Occurs(ProcessSteps(t, d, from), Placeholders[k])
    decreases 5 - from
  {
    if from < 5 {
      ReplacementForeign(d, from, k);
      NoNewPlaceholder(t, Placeholders[from], Replacement(d, from), Placeholders[k]);
      LaterStepsKeep(ReplaceAll(t, Placeholders[from], Replacement(d, from)), d, k, from + 1);
    }
  }

  /** Once past the step of placeholder `k`, it never occurs again. */
  lemma {:induction false} StepsRemove(t: string, d: Date, from: nat, k: nat)
    requires ValidDate(d) && from <= k < 5
    ensures !Occurs(ProcessSteps(t, d, from), Placeholders[k])
    decreases k - from
  {
    var q := Placeholders[k];
    var next := ReplaceAll(t, Placeholders[from], Replacement(d, from));
    if from == k {
      ReplacementForeign(d, k, k);
      NoNewPlaceholder(t, q, Replacement(d, k), q);
      LaterStepsKeep(next, d, k, k + 1);
    } else {
      StepsRemove(next, d, from + 1, k);
    }
  }

  /** Without any placeholder, the steps from `from` on change nothing. */
  lemma {:induction false} StepsUnchanged(t: string, d: Date, from: nat)
    requires ValidDate(d) && from <= 5
    requires forall k :: from <= k < 5 ==> !Occurs(t, Placeholders[k])
    ensures ProcessSteps(t, d, from) == t
    decreases 5 - from
  {
    if from < 5 {
      ReplaceAbsent(t, Placeholders[from], Replacement(d, from));
      StepsUnchanged(t, d, from + 1);
    }
  }

  /** A template without any of the five placeholders is returned unchanged. */
  lemma ProcessTemplateUnchanged(template: string, d: Date)
    requires ValidDate(d)
    requires forall k :: 0 <= k < |Placeholders| ==> !Occurs(template, Placeholders[k])
    ensures ProcessTemplate(template, d) == template
  {
    FiveSteps(template, d);
    StepsUnchanged(template, d, 0);
  }

  /** A piece of a template: literal text, or the placeholder with the given index. */
  datatype Piece = Literal(text: string) | Slot(index: nat)

  /**
   * Every `{` of the text is followed, inside the text, by a character other than `{`: the
   * text holds no `{{` and does not end in `{`, so no placeholder can start in it.
   */
  predicate LoneBraces(text: string) {
    forall i :: 0 <= i < |text| && text[i] == '{' ==> i + 1 < |text| && text[i + 1] != '{'
  }

  /** Literal text has only lone braces; a slot names one of the five placeholders. */
  predicate WellFormedPiece(p: Piece) {
    match p
    case Literal(text) => LoneBraces(text)
    case Slot(index) => index < |Placeholders|
  }

  predicate WellFormedPieces(ps: seq<Piece>) {
    forall i :: 0 <= i < |ps| ==> WellFormedPiece(ps[i])
  }

  /** A piece once the steps before `done` have run: a slot of an earlier step holds its value. */
  function PieceText(p: Piece, d: Date, done: nat): string
    requires ValidDate(d) && WellFormedPiece(p)
  {
    match p
    case Literal(text) => text
    case Slot(index) => if index < done then Replacement(d, index) else Placeholders[index]
  }

  /**
   * The text of a template once the steps before `done` have run: with `done == 0` the
   * template as written, with `done == 5` every placeholder filled in.
   */
  function Rendered(ps: seq<Piece>, d: Date, done: nat): string
    requires ValidDate(d) && WellFormedPieces(ps)
  {
    if ps == [] then [] else PieceText(ps[0], d, done) + Rendered(ps[1..], d, done)
  }

  /** Every placeholder opens with two braces, and has none after them. */
  lemma PlaceholderOpens(k: nat)
    requires k < |Placeholders|
    ensures var q := Placeholders[k]; |q| >= 4 && q[0] == '{' && q[1] == '{' && '{' !in q[2..]
  {
    assert k == 0 || k == 1 || k == 2 || k == 3 || k == 4;
  }

  /** No placeholder is a prefix of a later one, whatever follows that one. */
  lemma PlaceholderNotPrefix(j: nat, k: nat, r: string)
    requires j < k < |Placeholders|
    ensures !StartsWith(Placeholders[k] + r, Placeholders[j])
  {
    var h, p := Placeholders[k], Placeholders[j];
    var m: nat := if (j == 0 && k == 1) || (j == 1 && k == 4) then 4 else if j == 0 && k == 4 then 6 else 2;
    assert m < |h| && m < |p| && h[m] != p[m] by {
      assert j == 0 || j == 1 || j == 2 || j == 3;
      assert k == 1 || k == 2 || k == 3 || k == 4;
    }
    assert (h + r)[m] == h[m];
  }

  /** An earlier placeholder does not start anywhere inside a later one. */
  lemma PlaceholdersApart(j: nat, k: nat, r: string, i: nat)
    requires j < k < |Placeholders| && i < |Placeholders[k]|
    ensures !OccursAt(Placeholders[k] + r, Placeholders[j], i)
  {
    var h, p := Placeholders[k], Placeholders[j];
    var u := h + r;
    PlaceholderOpens(j);
    PlaceholderOpens(k);
    if i >= 2 {
      assert u[i] == h[2..][i - 2];
      assert u[i] != p[0];
      if i + |p| <= |u| {
        assert u[i..i + |p|][0] == u[i];
      }
    } else if i == 1 {
      assert u[2] == h[2..][0];
      assert u[2] != p[1];
      if i + |p| <= |u| {
        assert u[i..i + |p|][1] == u[2];
      }
    } else {
      PlaceholderNotPrefix(j, k, r);
    }
  }

  /** Step `j` turns the text before it into the text after it, piece by piece. */
  lemma {:induction false} StepRenders(ps: seq<Piece>, d: Date, j: nat)
    requires ValidDate(d) && WellFormedPieces(ps) && j < |Placeholders|
    ensures ReplaceAll(Rendered(ps, d, j), Placeholders[j], Replacement(d, j)) == Rendered(ps, d, j + 1)
    decreases |ps|
  {
    if ps != [] {
      var p, rep := Placeholders[j], Replacement(d, j);
      assert WellFormedPiece(ps[0]);
      assert WellFormedPieces(ps[1..]) by {
        forall i | 0 <= i < |ps[1..]| ensures WellFormedPiece(ps[1..][i]) {
          assert ps[1..][i] == ps[i + 1];
        }
      }
      var rest := Rendered(ps[1..], d, j);
      StepRenders(ps[1..], d, j);
      PlaceholderOpens(j);
      match ps[0]
      case Literal(text) =>
        LoneBracesSkipped(text, rest, p, rep);
      case Slot(k) =>
        if k < j {
          ReplacementIsPlain(d, k);
          assert '{' !in Replacement(d, k);
          BraceFreeSkipped(Replacement(d, k), rest, p, rep);
        } else if k == j {
          ReplaceAfterText([], p, rep, rest);
          assert [] + p + rest == p + rest;
          assert [] + rep + ReplaceAll(rest, p, rep) == rep + ReplaceAll(rest, p, rep);
        } else {
          forall i | 0 <= i < |Placeholders[k]| ensures !OccursAt(Placeholders[k] + rest, p, i) {
            PlaceholdersApart(j, k, rest, i);
          }
          ReplaceSkipping(Placeholders[k], rest, p, rep);
        }
    }
  }

  /** The steps from `from` on fill in the slots of those steps. */
  lemma {:induction false} StepsRender(ps: seq<Piece>, d: Date, from: nat)
    requires ValidDate(d) && WellFormedPieces(ps) && from <= 5
    ensures ProcessSteps(Rendered(ps, d, from), d, from) == Rendered(ps, d, 5)
    decreases 5 - from
  {
    if from < 5 {
      StepRenders(ps, d, from);
      StepsRender(ps, d, from + 1);
    }
  }

  /**
   * A template made of text with lone braces and placeholders comes out as the same text with each
   * placeholder, wherever and however often it occurs, replaced by its value.
   */
  lemma TemplateFilled(ps: seq<Piece>, d: Date)
    requires ValidDate(d) && WellFormedPieces(ps)
    ensures ProcessTemplate(Rendered(ps, d, 0), d) == Rendered(ps, d, |Placeholders|)
  {
    FiveSteps(Rendered(ps, d, 0), d);
    StepsRender(ps, d, 0);
  }

  /** The three pieces of a placeholder between two texts. */
  lemma RenderedAround(x: string, k: nat, y: string, d: Date, done: nat)
    requires ValidDate(d) && k < |Placeholders| && LoneBraces(x) && LoneBraces(y)
    ensures var ps := [Literal(x), Slot(k), Literal(y)];
            WellFormedPieces(ps) && Rendered(ps, d, done) == x + PieceText(Slot(k), d, done) + y
  {
    var last := [Literal(y)];
    var tail := [Slot(k)] + last;
    var ps := [Literal(x)] + tail;
    assert ps[1..] == tail && tail[1..] == last && last[1..] == [];
    assert WellFormedPieces(ps);
    assert Rendered(last, d, done) == y + Rendered([], d, done);
    assert Rendered(tail, d, done) == PieceText(Slot(k), d, done) + y;
  }

  /** One placeholder between texts with lone braces becomes its value, the texts around it kept. */
  lemma ProcessOnePlaceholder(x: string, k: nat, y: string, d: Date)
    requires ValidDate(d) && k < |Placeholders| && LoneBraces(x) && LoneBraces(y)
    ensures ProcessTemplate(x + Placeholders[k] + y, d) == x + Replacement(d, k) + y
  {
    var ps := [Literal(x), Slot(k), Literal(y)];
    RenderedAround(x, k, y, d, 0);
    RenderedAround(x, k, y, d, 5);
    TemplateFilled(ps, d);
  }

  /** Braces of the template's own text do not stop a placeholder after them from being filled. */
  lemma BracedTextFilled(d: Date)
    requires ValidDate(d)
    ensures ProcessTemplate("{a} {{date}}", d) == "{a} " + FormatDateString(d)
  {
    var x := "{a} ";
    assert LoneBraces(x) by {
      forall i | 0 <= i < |x| && x[i] == '{' ensures i + 1 < |x| && x[i + 1] != '{' {
        assert i == 0;
      }
    }
    ProcessOnePlaceholder(x, 0, "", d);
    assert x + Placeholders[0] + "" == "{a} {{date}}";
  }

  // ---------------------------------------------------------------------------
  // The manager

  /**
   * The `i`-th path the walk of `ensureFolderExists` visits: the first piece, then each time
   * the previous path, a `/` and the next piece.
   */
  function FolderPrefix(path: string, i: nat): string
    requires i < |Split(path, '/')|
  {
    if i == 0 then Split(path, '/')[0] else FolderPrefix(path, i - 1) + "/" + Split(path, '/')[i]
  }

  /** The `i`-th prefix is the first `i + 1` pieces of the path joined again by `/`. */
  lemma {:induction false} FolderPrefixIsJoin(path: string, i: nat)
    requires i < |Split(path, '/')|
    ensures FolderPrefix(path, i) == Join(Split(path, '/')[..i + 1], "/")
  {
    var parts := Split(path, '/');
    if i == 0 {
      assert parts[..1] == [parts[0]];
    } else {
      FolderPrefixIsJoin(path, i - 1);
      JoinSnoc(parts[..i], parts[i], "/");
      assert parts[..i + 1] == parts[..i] + [parts[i]];
    }
  }

  /** The last prefix is the path itself. */
  lemma LastFolderPrefix(path: string)
    ensures FolderPrefix(path, |Split(path, '/')| - 1) == path
  {
    var parts := Split(path, '/');
    FolderPrefixIsJoin(path, |parts| - 1);
    JoinSplit(path, '/');
    assert parts[..|parts|] == parts;
  }

  /** For a path that does not start with a slash, no prefix is empty. */
  lemma PrefixNotEmpty(path: string, i: nat)
    requires path != [] && path[0] != '/' && i < |Split(path, '/')|
    ensures FolderPrefix(path, i) != []
  {
    if i == 0 {
      assert Split(path, '/')[0] == [path[0]] + Split(path[1..], '/')[0];
    }
  }

  /**
   * One step of the walk: from the previous prefix (none before the first piece), adding the
   * next piece the way `ensureFolderExists` does (a piece alone while the path is still empty)
   * gives the next prefix.
   */
  lemma PrefixWalkStep(path: string, i: nat, current: string)
    requires path == [] || path[0] != '/'
    requires i < |Split(path, '/')|
    requires i == 0 ==> current == []
    requires i > 0 ==> current == FolderPrefix(path, i - 1)
    ensures (if current != [] then current + "/" + Split(path, '/')[i] else Split(path, '/')[i])
            == FolderPrefix(path, i)
  {
    // An empty path has one piece only, so past the first piece the previous prefix is not empty.
    if i > 0 && path != [] {
      PrefixNotEmpty(path, i - 1);
    }
  }

  /** `x` is one of the paths the walk over `path` visits. */
  predicate IsFolderPrefix(path: string, x: string) {
    exists i :: 0 <= i < |Split(path, '/')| && x == FolderPrefix(path, i)
  }

  /** A template is configured when its path is present and not empty. */
  predicate HasTemplate(config: Config) {
    config.templatePath.Some? && config.templatePath.value != []
  }

  class Manager {
    var config: Config

    constructor(config: Config)
      ensures this.config == config
    {
      this.config := config;
    }

    /** `updateConfig`: the settings are replaced. */
    method UpdateConfig(config: Config)
      modifies this
      ensures this.config == config
    {
      this.config := config;
    }

    /**
     * The content rule of `create`: content given is used as is; empty content is replaced by
     * the processed template when a template is configured and could be loaded (`loaded`
     * stands for what `loadTemplate` returns); otherwise it stays empty.
     */
    method ChooseContent(d: Date, content: string, loaded: Option<string>) returns (finalContent: string)
      requires ValidDate(d)
      ensures content != [] ==> finalContent == content
      ensures content == [] && HasTemplate(config) && loaded.Some? ==>
                finalContent == ProcessTemplate(loaded.value, d)
      ensures !(content == [] && HasTemplate(config) && loaded.Some?) ==> finalContent == content
    {
      finalContent := content;
      if content == [] && HasTemplate(config) {
        if loaded.Some? {
          finalContent := ProcessTemplate(loaded.value, d);
        }
      }
    }

    /**
     * The fallback of `ensureFolderExists`: every `/`-separated prefix of the path is visited
     * in turn and created when it is not `present` yet. For a path that does not start with a
     * slash, the prefixes are the joins of the first pieces, each one extending the previous
     * by `/` and the next piece, and the last one is the path itself.
     */
    method WalkFolderPrefixes(folderPath: string, present: set<string>)
      returns (visited: seq<string>, created: seq<string>, nowPresent: set<string>)
      ensures |visited| == |Split(folderPath, '/')|
      ensures folderPath == [] || folderPath[0] != '/' ==>
                (forall i {:trigger visited[i]} :: 0 <= i < |visited| ==> visited[i] == FolderPrefix(folderPath, i))
                && visited[|visited| - 1] == folderPath
      ensures forall x :: x in created <==> x in visited && x !in present
      ensures nowPresent == present + set x | x in visited
    {
      var parts := Split(folderPath, '/');
      var currentPath := "";
      visited, created, nowPresent := [], [], present;
      var i := 0;
      ghost var startsPlain := folderPath == [] || folderPath[0] != '/';
      while i < |parts|
        invariant 0 <= i <= |parts| && |visited| == i
        invariant i == 0 ==> currentPath == []
        invariant i > 0 ==> currentPath == visited[i - 1]
        invariant startsPlain ==> forall j {:trigger visited[j]} :: 0 <= j < i ==> visited[j] == FolderPrefix(folderPath, j)
        invariant forall x :: x in created <==> x in visited && x !in present
        invariant nowPresent == present + set x | x in visited
      {
        var part := parts[i];
        var nextPath := if currentPath != [] then currentPath + "/" + part else part;
        assert startsPlain ==> nextPath == FolderPrefix(folderPath, i) by {
          if startsPlain {
            PrefixWalkStep(folderPath, i, currentPath);
          }
        }
        currentPath := nextPath;
        visited := visited + [currentPath];
        if currentPath !in nowPresent {
          created := created + [currentPath];
          nowPresent := nowPresent + {currentPath};
        }
        i := i + 1;
      }
      if startsPlain {
        LastFolderPrefix(folderPath);
      }
    }

    /**
     * `ensureFolderExists`: nothing when the folder is `present`; otherwise one direct
     * creation, and only when that fails (`directCreateFails`), the prefix walk.
     */
    method EnsureFolderExists(folderPath: string, present: set<string>, directCreateFails: bool)
      returns (created: seq<string>)
      ensures folderPath in present ==> created == []
      ensures folderPath !in present && !directCreateFails ==> created == [folderPath]
      ensures folderPath !in present && directCreateFails && (folderPath == [] || folderPath[0] != '/') ==>
                forall x :: x in created <==> x !in present && IsFolderPrefix(folderPath, x)
    {
      if folderPath in present {
        created := [];
      } else if !directCreateFails {
        created := [folderPath];
      } else {
        var visited, nowPresent;
        visited, created, nowPresent := WalkFolderPrefixes(folderPath, present);
        if folderPath == [] || folderPath[0] != '/' {
          forall x ensures x in created <==> x !in present && IsFolderPrefix(folderPath, x) {
            if x in visited {
              var i :| 0 <= i < |visited| && visited[i] == x;
              assert 0 <= i < |Split(folderPath, '/')| && x == FolderPrefix(folderPath, i);
              assert IsFolderPrefix(folderPath, x);
            }
            if IsFolderPrefix(folderPath, x) {
              var i :| 0 <= i < |Split(folderPath, '/')| && x == FolderPrefix(folderPath, i);
              assert visited[i] == x;
            }
          }
        }
      }
    }
  }
}
