/**
 * `WikiLinkFormatter`: the display name of a meeting attendee, the "A, B and C" list of
 * wiki-links to attendees, and the bullet line of one event.
 */
module WikiLinkFormatter {
  import opened Wrappers
  import opened Text

  /** An attendee as the formatter receives it: an email and an optional display name. */
  datatype Attendee = Attendee(email: string, displayName: Option<string>)

  // ---------------------------------------------------------------------------
  // Names from emails

  /** The characters of the regex class `[._-]`. */
  predicate IsNameSeparator(c: char) {
    c == '.' || c == '_' || c == '-'
  }

  /** `toUpperCase` of one character, for the ASCII letters. */
  function ToUpper(c: char): (u: char)
    ensures 'a' <= c <= 'z' ==> u as int == c as int - 32
    ensures !('a' <= c <= 'z') ==> u == c
  {
    if 'a' <= c <= 'z' then (c as int - 32) as char else c
  }

  /** `toLowerCase` of one character, for the ASCII letters. */
  function ToLower(c: char): (l: char)
    ensures 'A' <= c <= 'Z' ==> l as int == c as int + 32
    ensures !('A' <= c <= 'Z') ==> l == c
  {
    if 'A' <= c <= 'Z' then (c as int + 32) as char else c
  }

  /** `s.toLowerCase()`. */
  function LowerAll(s: string): (r: string)
    ensures |r| == |s| && forall i :: 0 <= i < |s| ==> r[i] == ToLower(s[i])
  {
    if s == [] then [] else [ToLower(s[0])] + LowerAll(s[1..])
  }

  /** `part.charAt(0).toUpperCase() + part.slice(1).toLowerCase()`. */
  function Capitalize(part: string): (r: string)
    ensures |r| == |part|
    ensures part != [] ==> r[0] == ToUpper(part[0])
    ensures forall i :: 1 <= i < |part| ==> r[i] == ToLower(part[i])
  {
    if part == [] then [] else [ToUpper(part[0])] + LowerAll(part[1..])
  }

  /** Each part capitalized, in order. */
  function CapitalizeAll(parts: seq<string>): (r: seq<string>)
    ensures |r| == |parts| && forall i :: 0 <= i < |parts| ==> r[i] == Capitalize(parts[i])
  {
    if parts == [] then [] else [Capitalize(parts[0])] + CapitalizeAll(parts[1..])
  }

  /** `email.split('@')[0]`: the text before the first `@`, or all of it. */
  function LocalPart(email: string): (r: string)
    ensures StartsWith(email, r) && '@' !in r
    ensures |r| < |email| ==> email[|r|] == '@'
  {
    if email == [] || email[0] == '@' then [] else [email[0]] + LocalPart(email[1..])
  }

  /** `s.split(/[._-]/)`: the pieces between separators; empty pieces are kept. */
  function SplitNameParts(s: string): (r: seq<string>)
    ensures |r| >= 1
    ensures forall i :: 0 <= i < |r| ==> forall j :: 0 <= j < |r[i]| ==> !IsNameSeparator(r[i][j])
  {
    if s == [] then [[]]
    else
      var rest := SplitNameParts(s[1..]);
      if IsNameSeparator(s[0]) then [[]] + rest else [[s[0]] + rest[0]] + rest[1..]
  }

  /**
   * `extractName`: a non-empty display name is returned as given; otherwise the local part of
   * the email, split at `.`, `_` and `-`, each piece capitalized, joined with single spaces.
   */
  function ExtractName(email: string, displayName: Option<string>): (r: string)
    ensures displayName.Some? && displayName.value != [] ==> r == displayName.value
    ensures !(displayName.Some? && displayName.value != []) ==>
              r == NameByCharacter(LocalPart(email), true)
  {
    if displayName.Some? && displayName.value != [] then displayName.value
    else
      var parts := SplitNameParts(LocalPart(email));
      RenderSplit(LocalPart(email), true);
      assert [Capitalize(parts[0])] + CapitalizeAll(parts[1..]) == CapitalizeAll(parts);
      Join(CapitalizeAll(parts), " ")
  }

  /**
   * The name built character by character: a separator becomes a space, the first character
   * of a piece (at the start, or after a separator) is upper-cased, every other one lower-cased.
   */
  function NameByCharacter(s: string, atStart: bool): (r: string)
    ensures |r| == |s|
  {
    if s == [] then []
    else if IsNameSeparator(s[0]) then [' '] + NameByCharacter(s[1..], true)
    else [if atStart then ToUpper(s[0]) else ToLower(s[0])] + NameByCharacter(s[1..], false)
  }

  /** The character-by-character name, one position at a time. */
  lemma {:induction false} NameByCharacterAt(s: string, atStart: bool, i: nat)
    requires i < |s|
    ensures NameByCharacter(s, atStart)[i] ==
              if IsNameSeparator(s[i]) then ' '
              else if (if i == 0 then atStart else IsNameSeparator(s[i - 1])) then ToUpper(s[i])
              else ToLower(s[i])
  {
    if i > 0 {
      if IsNameSeparator(s[0]) {
        NameByCharacterAt(s[1..], true, i - 1);
      } else {
        NameByCharacterAt(s[1..], false, i - 1);
      }
    }
  }

  /** The pieces joined with spaces, the first one capitalized or only lower-cased. */
  function Render(parts: seq<string>, atStart: bool): string
    requires |parts| >= 1
  {
    Join([if atStart then Capitalize(parts[0]) else LowerAll(parts[0])] + CapitalizeAll(parts[1..]), " ")
  }

  /** The step of `RenderSplit` for a leading separator: an empty first piece, then a space. */
  lemma RenderAfterSeparator(s: string, atStart: bool)
    requires s != [] && IsNameSeparator(s[0])
    requires Render(SplitNameParts(s[1..]), true) == NameByCharacter(s[1..], true)
    ensures Render(SplitNameParts(s), atStart) == NameByCharacter(s, atStart)
  {
    var rest := SplitNameParts(s[1..]);
    var caps := CapitalizeAll(rest);
    assert [Capitalize(rest[0])] + CapitalizeAll(rest[1..]) == caps;
    var parts := SplitNameParts(s);
    assert parts == [[]] + rest;
    assert parts[1..] == rest;
    var first: string := if atStart then Capitalize([]) else LowerAll([]);
    assert first == [];
    assert Render(parts, atStart) == Join([[]] + caps, " ");
    assert ([[]] + caps)[1..] == caps;
    EmptyFirstPiece(Join(caps, " "));
  }

  /** An empty first piece leaves just the space in front of the rest. */
  lemma EmptyFirstPiece(tail: string)
    ensures [] + " " + tail == [' '] + tail
  {
  }

  /** The step of `RenderSplit` for a leading name character: it opens the first piece. */
  lemma RenderAfterLetter(s: string, atStart: bool)
    requires s != [] && !IsNameSeparator(s[0])
    requires Render(SplitNameParts(s[1..]), false) == NameByCharacter(s[1..], false)
    ensures Render(SplitNameParts(s), atStart) == NameByCharacter(s, atStart)
  {
    var rest := SplitNameParts(s[1..]);
    var parts := SplitNameParts(s);
    assert parts == [[s[0]] + rest[0]] + rest[1..];
    var g := if atStart then ToUpper(s[0]) else ToLower(s[0]);
    var first: string := if atStart then Capitalize(parts[0]) else LowerAll(parts[0]);
    assert parts[0] == [s[0]] + rest[0];
    assert parts[0][1..] == rest[0];
    assert first == [g] + LowerAll(rest[0]);
    assert parts[1..] == rest[1..];
    JoinHead([g], LowerAll(rest[0]), CapitalizeAll(rest[1..]), " ");
  }

  /** Splitting, capitalizing and joining is the character-by-character name. */
  lemma {:induction false} RenderSplit(s: string, atStart: bool)
    ensures Render(SplitNameParts(s), atStart) == NameByCharacter(s, atStart)
    decreases |s|
  {
    if s != [] {
      if IsNameSeparator(s[0]) {
        RenderSplit(s[1..], true);
        RenderAfterSeparator(s, atStart);
      } else {
        RenderSplit(s[1..], false);
        RenderAfterLetter(s, atStart);
      }
    }
  }

  /** Joining the pieces with one character gives back the name with each separator replaced. */
  lemma {:induction false} SplitNamePartsJoin(s: string)
    ensures |Join(SplitNameParts(s), " ")| == |s|
    ensures forall i :: 0 <= i < |s| ==>
              Join(SplitNameParts(s), " ")[i] == if IsNameSeparator(s[i]) then ' ' else s[i]
    decreases |s|
  {
    if s != [] {
      SplitNamePartsJoin(s[1..]);
      var rest := SplitNameParts(s[1..]);
      var j := Join(rest, " ");
      if IsNameSeparator(s[0]) {
        assert ([[]] + rest)[1..] == rest;
        assert Join(SplitNameParts(s), " ") == [] + " " + j;
      } else {
        JoinHead([s[0]], rest[0], rest[1..], " ");
        assert [rest[0]] + rest[1..] == rest;
        assert Join(SplitNameParts(s), " ") == [s[0]] + j;
      }
    }
  }

  /**
   * The email-derived name, position by position: as long as the local part, a space for each
   * separator, upper case at the start of each piece and lower case elsewhere.
   */
  lemma NameFromEmail(email: string, i: nat)
    requires i < |LocalPart(email)|
    ensures var s := LocalPart(email);
            var r := ExtractName(email, None);
            |r| == |s|
            && r[i] == (if IsNameSeparator(s[i]) then ' '
                        else if i == 0 || IsNameSeparator(s[i - 1]) then ToUpper(s[i])
                        else ToLower(s[i]))
  {
    NameByCharacterAt(LocalPart(email), true, i);
  }

  // ---------------------------------------------------------------------------
  // Attendee lists

  /** `[[name]]`. */
  function Link(name: string): (r: string)
    ensures |r| == |name| + 4 && r[..2] == "[[" && r[|r| - 2..] == "]]" && r[2..|r| - 2] == name
  {
    "[[" + name + "]]"
  }

  /** The wiki-link of each attendee, in input order. */
  function Links(attendees: seq<Attendee>): (r: seq<string>)
    ensures |r| == |attendees|
    ensures forall i :: 0 <= i < |attendees| ==>
              r[i] == Link(ExtractName(attendees[i].email, attendees[i].displayName))
  {
    if attendees == [] then []
    else [Link(ExtractName(attendees[0].email, attendees[0].displayName))] + Links(attendees[1..])
  }

  /** The three shapes of the list, as `formatAttendees` builds them from the links. */
  function ListNames(names: seq<string>): (r: string)
    ensures names == [] ==> r == []
    ensures names != [] ==> StartsWith(r, names[0])
    ensures |names| >= 2 ==> EndsWith(r, " and " + names[|names| - 1])
  {
    if names == [] then ""
    else if |names| == 1 then names[0]
    else if |names| == 2 then names[0] + " and " + names[1]
    else Join(names[..|names| - 1], ", ") + " and " + names[|names| - 1]
  }

  /** `formatAttendees`: "" for no attendees, else the list of their wiki-links. */
  function FormatAttendees(attendees: seq<Attendee>): (r: string)
    ensures r == [] <==> attendees == []
    ensures attendees != [] ==> r == Listing(Links(attendees))
  {
    var names := Links(attendees);
    if names == [] then ""
    else
      ListNamesIsListing(names);
      ListingStartsWithFirst(names);
      ListNames(names)
  }

  /**
   * An English enumeration, built from the front: one name; two joined by " and "; more, the
   * first, a comma and the enumeration of the rest.
   */
  function Listing(names: seq<string>): string
    requires names != []
  {
    if |names| == 1 then names[0]
    else if |names| == 2 then names[0] + " and " + names[1]
    else names[0] + ", " + Listing(names[1..])
  }

  lemma {:induction false} ListingStartsWithFirst(names: seq<string>)
    requires names != []
    ensures StartsWith(Listing(names), names[0])
  {
    var l := Listing(names);
    if |names| == 2 {
      assert l == names[0] + (" and " + names[1]);
    } else if |names| > 2 {
      assert l == names[0] + (", " + Listing(names[1..]));
    }
  }

  /** Joining all but the last with ", " and adding " and last" is the enumeration built from the front. */
  lemma {:induction false} ListNamesIsListing(names: seq<string>)
    requires names != []
    ensures ListNames(names) == Listing(names)
  {
    if |names| > 2 {
      var n := |names|;
      var rest := names[1..];
      ListNamesIsListing(rest);
      assert names[..n - 1] == [names[0]] + rest[..n - 2];
      assert ([names[0]] + rest[..n - 2])[1..] == rest[..n - 2];
      assert Join(names[..n - 1], ", ") == names[0] + ", " + Join(rest[..n - 2], ", ");
      if |rest| == 2 {
        assert Join(rest[..1], ", ") == rest[0];
      }
    }
  }

  /** One attendee gives a single link, two are joined by " and ", a third is preceded by a comma. */
  lemma AttendeeShapes(a: Attendee, b: Attendee, c: Attendee)
    ensures var la, lb, lc := Link(ExtractName(a.email, a.displayName)),
                              Link(ExtractName(b.email, b.displayName)),
                              Link(ExtractName(c.email, c.displayName));
            FormatAttendees([a]) == la
            && FormatAttendees([a, b]) == la + " and " + lb
            && FormatAttendees([a, b, c]) == la + ", " + lb + " and " + lc
  {
    var la, lb, lc := Link(ExtractName(a.email, a.displayName)),
                      Link(ExtractName(b.email, b.displayName)),
                      Link(ExtractName(c.email, c.displayName));
    assert Links([a, b, c]) == [la, lb, lc];
    assert [la, lb, lc][1..] == [lb, lc];
    assert Listing([la, lb, lc]) == la + ", " + (lb + " and " + lc);
  }

  // ---------------------------------------------------------------------------
  // Event lines

  /** `formatEventAsBullet`: "title with <attendees>" or the title alone, with "- " in front when asked. */
  function FormatEventAsBullet(title: string, attendees: seq<Attendee>, includeBullet: bool): (r: string)
    ensures r == (if includeBullet then "- " else "")
                 + (if attendees == [] then title else title + " with " + Listing(Links(attendees)))
  {
    var formatted := FormatAttendees(attendees);
    var content := if formatted != [] then title + " with " + formatted else title;
    if includeBullet then "- " + content else content
  }
}
