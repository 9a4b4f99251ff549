/**
 * `TimelineView`: the scrolling window of daily notes. Days are kept by their signed offset
 * from a reference date; the window grows at either end as the user scrolls, and the view
 * tracks which day is at the top of the viewport and announces it when it changes.
 *
 * The DOM is reduced to `container`, the `data-offset` values of the day containers as they
 * appear from top to bottom; each day section is reduced to the date it shows.
 */
module TimelineView {
  import opened Wrappers
  import opened CalendarDate

  /** How `renderDays` places the new days. */
  datatype Mode = Append | Prepend | Replace

  /** One IntersectionObserver entry: the day's offset, whether it intersects, and the top of its box. */
  datatype Entry = Entry(offset: int, isIntersecting: bool, top: int)

  /** Distance in pixels from either end of the scroll range that loads more days. */
  const LoadMoreThreshold: int := 500

  /** Only a day whose top is above this line can become the visible day. */
  const TopLine: int := 200

  // ---------------------------------------------------------------------------
  // Offsets

  /** `s[i]`, named so that the no-repeat property is only used where it is asked for. */
  function At(s: seq<int>, i: int): int
    requires 0 <= i < |s|
  {
    s[i]
  }

  /** No offset occurs twice. */
  predicate Distinct(s: seq<int>) {
    forall i, j :: 0 <= i < j < |s| ==> At(s, i) != At(s, j)
  }

  /** One more offset, not yet present, keeps a list free of repeats, whichever end it joins. */
  lemma DistinctAdd(x: int, s: seq<int>)
    requires Distinct(s) && x !in s
    ensures Distinct([x] + s) && Distinct(s + [x])
  {
    var a, b := [x] + s, s + [x];
    forall i, j | 0 <= i < j < |a| ensures At(a, i) != At(a, j) {
      if i > 0 {
        assert At(a, i) == At(s, i - 1) && At(a, j) == At(s, j - 1);
      } else {
        assert At(a, j) == s[j - 1];
      }
    }
    forall i, j | 0 <= i < j < |b| ensures At(b, i) != At(b, j) {
      if j < |s| {
        assert At(b, i) == At(s, i) && At(b, j) == At(s, j);
      } else {
        assert At(b, i) == s[i];
      }
    }
  }

  predicate StrictlyAscending(s: seq<int>) {
    forall i, j :: 0 <= i < j < |s| ==> s[i] < s[j]
  }

  function Elements(s: seq<int>): set<int> {
    set x | x in s
  }

  /** The offsets `lo..hi` in order. */
  function Range(lo: int, hi: int): (r: seq<int>)
    ensures |r| == if lo <= hi then hi - lo + 1 else 0
    ensures forall i :: 0 <= i < |r| ==> r[i] == lo + i
    decreases hi - lo
  {
    if lo > hi then [] else [lo] + Range(lo + 1, hi)
  }

  /** The offsets in `s..e` that are not yet `present`, in order. */
  function Missing(s: int, e: int, present: set<int>): seq<int>
    decreases e - s
  {
    if s > e then []
    else (if s in present then [] else [s]) + Missing(s + 1, e, present)
  }

  /** The missing offsets lie in `s..e`, none of them present, in ascending order. */
  lemma {:induction false} MissingSound(s: int, e: int, present: set<int>)
    ensures var r := Missing(s, e, present);
            (forall i :: 0 <= i < |r| ==> s <= r[i] <= e && r[i] !in present)
            && StrictlyAscending(r)
    decreases e - s
  {
    if s <= e {
      MissingSound(s + 1, e, present);
    }
  }

  /** Every offset of `s..e` that is not present is among the missing ones. */
  lemma {:induction false} MissingComplete(s: int, e: int, present: set<int>)
    ensures forall x :: s <= x <= e && x !in present ==> x in Missing(s, e, present)
    decreases e - s
  {
    if s <= e {
      MissingComplete(s + 1, e, present);
    }
  }

  /** With nothing present, the missing offsets are the whole range. */
  lemma {:induction false} MissingAllAbsent(s: int, e: int, present: set<int>)
    requires forall x :: s <= x <= e ==> x !in present
    ensures Missing(s, e, present) == Range(s, e)
    decreases e - s
  {
    if s <= e {
      MissingAllAbsent(s + 1, e, present);
    }
  }

  /** An unbroken run of offsets, in ascending order. */
  predicate IsRun(c: seq<int>) {
    forall i :: 0 <= i < |c| ==> c[i] == c[0] + i
  }

  /** A non-empty run is exactly the range from its first offset to its last. */
  lemma RunIsRange(c: seq<int>)
    requires c != []
    ensures IsRun(c) <==> c == Range(c[0], c[|c| - 1])
  {
  }

  /** A run starts at its minimum and ends at its maximum. */
  lemma RunBounds(c: seq<int>)
    requires c != [] && IsRun(c)
    ensures MinOffset(c) == c[0] && MaxOffset(c) == c[|c| - 1]
  {
    var k :| 0 <= k < |c| && c[k] == MinOffset(c);
    var l :| 0 <= l < |c| && c[l] == MaxOffset(c);
    assert c[0] in c && c[|c| - 1] in c;
  }

  /** `loadMorePast` keeps a run a run: the three days above its first one continue it. */
  lemma PastContiguous(before: seq<int>, after: seq<int>)
    requires before != [] && IsRun(before)
    requires after == PastDays(before) + before
    ensures IsRun(after) && after[0] == before[0] - 3
  {
    RunBounds(before);
    forall i | 3 <= i < |after| ensures after[i] == after[0] + i {
      assert after[i] == before[i - 3];
    }
  }

  /** `loadMoreFuture` keeps a run a run: the three days below its last one continue it. */
  lemma FutureContiguous(before: seq<int>, after: seq<int>)
    requires before != [] && IsRun(before)
    requires after == before + FutureDays(before)
    ensures IsRun(after) && after[|after| - 1] == before[|before| - 1] + 3
  {
    RunBounds(before);
    forall i | 0 <= i < |after| ensures after[i] == after[0] + i {
      if i < |before| {
        assert after[i] == before[i];
      }
    }
  }

  /** Three consecutive offsets none of which is present are all missing. */
  lemma ThreeMissing(lo: int, present: set<int>)
    requires lo !in present && lo + 1 !in present && lo + 2 !in present
    ensures Missing(lo, lo + 2, present) == [lo, lo + 1, lo + 2]
    ensures Elements([lo, lo + 1, lo + 2]) == {lo, lo + 1, lo + 2}
  {
    MissingAllAbsent(lo, lo + 2, present);
    assert Range(lo, lo + 2) == [lo, lo + 1, lo + 2];
  }

  /** The window shown on opening and after a jump: offsets -3..6, one unbroken run. */
  lemma InitialWindow()
    ensures Missing(-3, 6, {}) == Range(-3, 6) && IsRun(Range(-3, 6))
    ensures forall o :: o in Elements(Range(-3, 6)) <==> -3 <= o <= 6
  {
    MissingAllAbsent(-3, 6, {});
    var r := Range(-3, 6);
    forall o | -3 <= o <= 6 ensures o in Elements(r) {
      assert r[o + 3] == o;
    }
  }

  /** The given order, back to front (`Array.prototype.reverse`). */
  function Reverse(s: seq<int>): (r: seq<int>)
    ensures |r| == |s|
    ensures forall i :: 0 <= i < |s| ==> r[i] == s[|s| - 1 - i]
  {
    if s == [] then [] else [s[|s| - 1]] + Reverse(s[..|s| - 1])
  }

  /** An ascending list has no repeats, and neither has its reversal, which holds the same offsets. */
  lemma AscendingReversal(s: seq<int>)
    requires StrictlyAscending(s)
    ensures Distinct(s) && Distinct(Reverse(s))
    ensures Elements(Reverse(s)) == Elements(s)
    ensures Reverse(Reverse(s)) == s
  {
    var r := Reverse(s);
    forall i, j | 0 <= i < j < |s| ensures At(s, i) != At(s, j) {
    }
    forall i, j | 0 <= i < j < |r| ensures At(r, i) != At(r, j) {
      assert r[i] == s[|s| - 1 - i] && r[j] == s[|s| - 1 - j];
    }
    forall x | x in s ensures x in r {
      var i :| 0 <= i < |s| && s[i] == x;
      assert r[|s| - 1 - i] == x;
    }
  }

  /** The on-screen order after placing `offs`, one at a time, on top of `c` or below it. */
  function Placed(c: seq<int>, offs: seq<int>, atTop: bool): seq<int> {
    if atTop then Reverse(offs) + c else c + offs
  }

  /**
   * Placing on top puts the `i`-th offset `i` places above the old top, so the last one placed
   * is highest; placing below appends the offsets in order. What was shown stays, in order.
   */
  lemma PlacedPositions(c: seq<int>, offs: seq<int>, atTop: bool)
    ensures var r := Placed(c, offs, atTop);
            |r| == |c| + |offs|
            && (atTop ==> r[|offs|..] == c && forall i :: 0 <= i < |offs| ==> r[|offs| - 1 - i] == offs[i])
            && (!atTop ==> r[..|c|] == c && forall i :: 0 <= i < |offs| ==> r[|c| + i] == offs[i])
  {
  }

  /** In a list free of repeats, no later offset equals the one at `i`. */
  lemma DistinctLater(s: seq<int>, i: nat)
    requires Distinct(s) && i < |s|
    ensures forall j :: i < j < |s| ==> s[j] != s[i]
  {
    forall j | i < j < |s| ensures s[j] != s[i] {
      assert At(s, i) != At(s, j);
    }
  }

  /** One more offset of a prefix adds that offset to its elements. */
  lemma ElementsSnoc(s: seq<int>, i: nat)
    requires i < |s|
    ensures Elements(s[..i + 1]) == Elements(s[..i]) + {s[i]}
  {
    assert s[..i + 1] == s[..i] + [s[i]];
  }

  lemma PlacedStep(c: seq<int>, offs: seq<int>, i: nat, atTop: bool)
    requires i < |offs|
    ensures Placed(c, offs[..i + 1], atTop)
            == if atTop then [offs[i]] + Placed(c, offs[..i], atTop) else Placed(c, offs[..i], atTop) + [offs[i]]
  {
    assert offs[..i + 1] == offs[..i] + [offs[i]];
    assert offs[..i + 1][..i] == offs[..i];
  }

  /** What the second loop of `renderDays` needs of the offsets the first one collects. */
  lemma PendingOffsets(s: int, e: int, present: set<int>)
    ensures var a := Missing(s, e, present);
            Distinct(a) && Distinct(Reverse(a))
            && (forall j :: 0 <= j < |a| ==> a[j] !in present)
            && (forall j :: 0 <= j < |a| ==> Reverse(a)[j] !in present)
            && Elements(Reverse(a)) == Elements(a) && Reverse(Reverse(a)) == a
  {
    MissingSound(s, e, present);
    AscendingReversal(Missing(s, e, present));
  }

  /** `Math.min` over a non-empty list of offsets. */
  function MinOffset(s: seq<int>): (r: int)
    requires s != []
    ensures r in s && forall x :: x in s ==> r <= x
  {
    if |s| == 1 then s[0]
    else
      assert s == [s[0]] + s[1..];
      var m := MinOffset(s[1..]); if s[0] <= m then s[0] else m
  }

  /** `Math.max` over a non-empty list of offsets. */
  function MaxOffset(s: seq<int>): (r: int)
    requires s != []
    ensures r in s && forall x :: x in s ==> x <= r
  {
    if |s| == 1 then s[0]
    else
      assert s == [s[0]] + s[1..];
      var m := MaxOffset(s[1..]); if s[0] >= m then s[0] else m
  }

  /** The three offsets `loadMorePast` asks for: the days just before the earliest one shown. */
  function PastDays(c: seq<int>): seq<int>
    requires c != []
  {
    var m := MinOffset(c); [m - 3, m - 2, m - 1]
  }

  /** The three offsets `loadMoreFuture` asks for: the days just after the latest one shown. */
  function FutureDays(c: seq<int>): seq<int>
    requires c != []
  {
    var m := MaxOffset(c); [m + 1, m + 2, m + 3]
  }

  /** The past days are three consecutive offsets, each earlier than every offset shown. */
  lemma PastDaysBefore(c: seq<int>)
    requires c != []
    ensures var p := PastDays(c); |p| == 3 && p[1] == p[0] + 1 && p[2] == p[0] + 2
    ensures forall x, y :: x in PastDays(c) && y in c ==> x < y
  {
  }

  /** The future days are three consecutive offsets, each later than every offset shown. */
  lemma FutureDaysAfter(c: seq<int>)
    requires c != []
    ensures var f := FutureDays(c); |f| == 3 && f[1] == f[0] + 1 && f[2] == f[0] + 2
    ensures forall x, y :: x in FutureDays(c) && y in c ==> y < x
  {
  }

  /** `getDateFromOffset`: a copy of the reference date whose day of the month is moved by the offset. */
  function GetDateFromOffset(referenceDate: Date, offset: int): (r: Date)
    requires ValidDate(referenceDate)
    ensures ValidDate(r) && r == AddDays(referenceDate, offset)
  {
    SetDateMoves(referenceDate, offset);
    JsSetDate(referenceDate, referenceDate.day + offset)
  }

  /** The opening window around 1 January 2025: from 29 December 2024 to 7 January 2025. */
  lemma NewYearWindow()
    ensures GetDateFromOffset(Date(2025, 1, 1), -3) == Date(2024, 12, 29)
    ensures GetDateFromOffset(Date(2025, 1, 1), 6) == Date(2025, 1, 7)
  {
    AddDaysCharacterized(Date(2025, 1, 1), -3, Date(2024, 12, 29));
    AddDaysCharacterized(Date(2025, 1, 1), 6, Date(2025, 1, 7));
  }

  // ---------------------------------------------------------------------------
  // The day at the top of the viewport

  /** An entry that may become the visible day: intersecting, with its top above the line. */
  predicate Eligible(e: Entry) {
    e.isIntersecting && e.top < TopLine
  }

  function Abs(x: int): nat {
    if x < 0 then -x else x
  }

  /** Entry `i` is nearest the top among the eligible entries, and the first such one. */
  predicate IsTopMost(entries: seq<Entry>, i: int) {
    0 <= i < |entries| && Eligible(entries[i])
    && (forall j :: 0 <= j < i && Eligible(entries[j]) ==> Abs(entries[j].top) > Abs(entries[i].top))
    && (forall j :: i < j < |entries| && Eligible(entries[j]) ==> Abs(entries[j].top) >= Abs(entries[i].top))
  }

  /** At most one entry is the top-most one. */
  lemma TopMostUnique(entries: seq<Entry>, i: int, j: int)
    requires IsTopMost(entries, i) && IsTopMost(entries, j)
    ensures i == j
  {
  }

  /**
   * The `forEach` of the observer callback: the entry with the smallest distance from the
   * top among those intersecting with their top above the line; none when there is none.
   */
  method TopMostEntry(entries: seq<Entry>) returns (r: Option<nat>)
    ensures r.None? <==> forall j :: 0 <= j < |entries| ==> !Eligible(entries[j])
    ensures r.Some? ==> IsTopMost(entries, r.value)
  {
    var closestToTop: Option<nat> := None;
    r := None;
    var k := 0;
    while k < |entries|
      invariant 0 <= k <= |entries|
      invariant r.None? <==> closestToTop.None?
      invariant r.None? ==> forall j :: 0 <= j < k ==> !Eligible(entries[j])
      invariant r.Some? ==> r.value < k && Eligible(entries[r.value])
                            && closestToTop.value == Abs(entries[r.value].top)
      invariant r.Some? ==> forall j :: 0 <= j < r.value && Eligible(entries[j]) ==> Abs(entries[j].top) > closestToTop.value
      invariant r.Some? ==> forall j :: r.value < j < k && Eligible(entries[j]) ==> Abs(entries[j].top) >= closestToTop.value
    {
      var entry := entries[k];
      if entry.isIntersecting {
        var distanceFromTop := Abs(entry.top);
        if (closestToTop.None? || distanceFromTop < closestToTop.value) && entry.top < TopLine {
          closestToTop := Some(distanceFromTop);
          r := Some(k);
        }
      }
      k := k + 1;
    }
  }

  /** The focused day is still on screen: some entry for it intersects. */
  predicate FocusedVisible(entries: seq<Entry>, offset: int) {
    exists i :: 0 <= i < |entries| && entries[i].offset == offset && entries[i].isIntersecting
  }

  // ---------------------------------------------------------------------------
  // The view

  class Timeline {
    /** The scroll container exists (`onOpen` has run). */
    var isOpen: bool
    var referenceDate: Date
    /** `daySections`: the rendered days by offset, each reduced to its date. */
    var daySections: map<int, Date>
    /** The offsets of the day containers, top to bottom. */
    var container: seq<int>
    var isRendering: bool
    var focusedDayOffset: Option<int>
    var lastFocusedDayOffset: Option<int>
    var currentVisibleDate: Option<Date>
    /** The dates announced by `onVisibleDayChanged`, in order. */
    var notifications: seq<Date>

    /** The section map and the on-screen order agree: each offset once, and only rendered offsets. */
    predicate Consistent()
      reads this`referenceDate, this`container, this`daySections, this`isOpen
      reads this`notifications, this`currentVisibleDate
    {
      ValidDate(referenceDate)
      && Distinct(container) && Elements(container) == daySections.Keys
      && (!isOpen ==> container == [])
      && (notifications == [] <==> currentVisibleDate.None?)
      && (notifications != [] ==> currentVisibleDate == Some(notifications[|notifications| - 1]))
      && (currentVisibleDate.Some? ==> ValidDate(currentVisibleDate.value))
    }

    /** Every section shows the reference date moved by its offset. */
    predicate DatesMatch()
      reads this`daySections, this`referenceDate
      requires ValidDate(referenceDate)
    {
      forall o :: o in daySections ==> daySections[o] == AddDays(referenceDate, o)
    }

    predicate Valid()
      reads this`referenceDate, this`container, this`daySections, this`isOpen
      reads this`notifications, this`currentVisibleDate
    {
      Consistent() && DatesMatch()
    }

    /** The window is one unbroken run of offsets, shown in ascending order. */
    predicate Contiguous()
      reads this`container
    {
      IsRun(container)
    }

    constructor(today: Date)
      requires ValidDate(today)
      ensures Valid() && Contiguous()
      ensures !isOpen && referenceDate == today && daySections == map[] && container == []
      ensures !isRendering && focusedDayOffset == None && lastFocusedDayOffset == None
      ensures currentVisibleDate == None && notifications == []
    {
      isOpen := false;
      referenceDate := today;
      daySections := map[];
      container := [];
      isRendering := false;
      focusedDayOffset := None;
      lastFocusedDayOffset := None;
      currentVisibleDate := None;
      notifications := [];
    }

    /** The first loop of `renderDays`: the offsets of `s..e` without a section yet. */
    method CollectOffsets(startOffset: int, endOffset: int) returns (offsets: seq<int>)
      ensures offsets == Missing(startOffset, endOffset, daySections.Keys)
    {
      ghost var present := daySections.Keys;
      offsets := [];
      var offset := startOffset;
      while offset <= endOffset
        invariant offset == startOffset || startOffset < offset <= endOffset + 1
        invariant offsets + Missing(offset, endOffset, present) == Missing(startOffset, endOffset, present)
        decreases endOffset - offset
      {
        ghost var step := if offset in present then [] else [offset];
        ghost var rest := Missing(offset + 1, endOffset, present);
        assert Missing(offset, endOffset, present) == step + rest;
        ghost var done := offsets;
        if offset !in daySections {
          offsets := offsets + [offset];
        }
        assert offsets == done + step;
        assert done + (step + rest) == offsets + rest;
        offset := offset + 1;
      }
    }

    /** One step of that loop: a day container and a section for one more offset. */
    method AddSection(offset: int, atTop: bool)
      requires Valid() && isOpen && offset !in daySections
      modifies this
      ensures Valid()
      ensures daySections == old(daySections)[offset := AddDays(referenceDate, offset)]
      ensures daySections.Keys == old(daySections).Keys + {offset}
      ensures container == if atTop then [offset] + old(container) else old(container) + [offset]
      ensures isOpen && referenceDate == old(referenceDate) && isRendering == old(isRendering)
      ensures focusedDayOffset == old(focusedDayOffset) && lastFocusedDayOffset == old(lastFocusedDayOffset)
      ensures currentVisibleDate == old(currentVisibleDate) && notifications == old(notifications)
    {
      var date := GetDateFromOffset(referenceDate, offset);
      DistinctAdd(offset, container);
      if atTop {
        container := [offset] + container;
      } else {
        container := container + [offset];
      }
      daySections := daySections[offset := date];
    }

    /**
     * The second loop of `renderDays`: each offset gets a day container (on top of the others
     * when `atTop`, as `insertBefore(…, firstChild)` does, otherwise at the end) and a section
     * for its date.
     */
    method PlaceSections(offsets: seq<int>, atTop: bool)
      requires Valid() && isOpen && Distinct(offsets)
      requires forall j :: 0 <= j < |offsets| ==> offsets[j] !in daySections
      modifies this
      ensures Valid()
      ensures daySections.Keys == old(daySections).Keys + Elements(offsets)
      ensures container == Placed(old(container), offsets, atTop)
      ensures isOpen && referenceDate == old(referenceDate) && isRendering == old(isRendering)
      ensures focusedDayOffset == old(focusedDayOffset) && lastFocusedDayOffset == old(lastFocusedDayOffset)
      ensures currentVisibleDate == old(currentVisibleDate) && notifications == old(notifications)
    {
      ghost var keys, shown := daySections.Keys, container;
      var i := 0;
      while i < |offsets|
        invariant 0 <= i <= |offsets|
        invariant Valid() && isOpen && referenceDate == old(referenceDate) && isRendering == old(isRendering)
        invariant focusedDayOffset == old(focusedDayOffset) && lastFocusedDayOffset == old(lastFocusedDayOffset)
        invariant currentVisibleDate == old(currentVisibleDate) && notifications == old(notifications)
        invariant daySections.Keys == keys + Elements(offsets[..i])
        invariant forall j :: i <= j < |offsets| ==> offsets[j] !in daySections
        invariant container == Placed(shown, offsets[..i], atTop)
      {
        ElementsSnoc(offsets, i);
        PlacedStep(shown, offsets, i, atTop);
        DistinctLater(offsets, i);
        AddSection(offsets[i], atTop);
        i := i + 1;
      }
      assert offsets[..i] == offsets;
    }

    /** Both loops of `renderDays`, once the guard has let the call through. */
    method FillDays(startOffset: int, endOffset: int, atTop: bool)
      requires Valid() && isOpen
      modifies this
      ensures Valid()
      ensures var added := Missing(startOffset, endOffset, old(daySections).Keys);
              daySections.Keys == old(daySections).Keys + Elements(added)
              && container == if atTop then added + old(container) else old(container) + added
      ensures isOpen && referenceDate == old(referenceDate) && isRendering == old(isRendering)
      ensures focusedDayOffset == old(focusedDayOffset) && lastFocusedDayOffset == old(lastFocusedDayOffset)
      ensures currentVisibleDate == old(currentVisibleDate) && notifications == old(notifications)
    {
      var added := CollectOffsets(startOffset, endOffset);
      PendingOffsets(startOffset, endOffset, daySections.Keys);
      if atTop {
        PlaceSections(Reverse(added), true);
      } else {
        PlaceSections(added, false);
      }
    }

    /**
     * `renderDays`: nothing without a scroll container, nor for an extension while a render
     * is running. Otherwise (after clearing everything for `Replace`) each offset of `s..e`
     * without a section gets one, placed at the end, or for `Prepend` at the top in reverse
     * order so that the new days read in ascending order above the old ones.
     */
    method RenderDays(startOffset: int, endOffset: int, mode: Mode)
      requires Consistent() && (mode != Replace ==> DatesMatch())
      modifies this
      ensures Valid()
      ensures isOpen == old(isOpen) && referenceDate == old(referenceDate)
      ensures focusedDayOffset == old(focusedDayOffset) && lastFocusedDayOffset == old(lastFocusedDayOffset)
      ensures currentVisibleDate == old(currentVisibleDate) && notifications == old(notifications)
      ensures !isOpen || (old(isRendering) && mode != Replace) ==>
                daySections == old(daySections) && container == old(container) && isRendering == old(isRendering)
      ensures isOpen && !(old(isRendering) && mode != Replace) ==>
                var base := if mode == Replace then {} else old(daySections).Keys;
                var added := Missing(startOffset, endOffset, base);
                !isRendering
                && daySections.Keys == base + Elements(added)
                && container == match mode
                                case Replace => added
                                case Append => old(container) + added
                                case Prepend => added + old(container)
    {
      if !isOpen {
        return;
      }
      if isRendering && mode != Replace {
        return;
      }
      isRendering := true;
      if mode == Replace {
        daySections := map[];
        container := [];
      }
      assert daySections.Keys == if mode == Replace then {} else old(daySections).Keys;
      FillDays(startOffset, endOffset, mode == Prepend);
      isRendering := false;
    }

    /** `loadMorePast`: the three days before the earliest rendered one, at the top. */
    method LoadMorePast()
      requires Valid() && (isOpen && !isRendering ==> container != [])
      modifies this
      ensures Valid()
      ensures isOpen == old(isOpen) && referenceDate == old(referenceDate)
      ensures focusedDayOffset == old(focusedDayOffset) && lastFocusedDayOffset == old(lastFocusedDayOffset)
      ensures currentVisibleDate == old(currentVisibleDate) && notifications == old(notifications)
      ensures !isOpen || old(isRendering) ==>
                daySections == old(daySections) && container == old(container) && isRendering == old(isRendering)
      ensures isOpen && !old(isRendering) ==>
                !isRendering
                && daySections.Keys == old(daySections).Keys + Elements(PastDays(old(container)))
                && container == PastDays(old(container)) + old(container)
    {
      if container == [] {
        return;
      }
      var currentMin := MinOffset(container);
      var startOffset, endOffset := currentMin - 3, currentMin - 1;
      forall x | startOffset <= x <= endOffset ensures x !in daySections.Keys {
        assert x !in Elements(container);
      }
      ghost var keys, before := daySections.Keys, container;
      ThreeMissing(startOffset, keys);
      ghost var added := PastDays(before);
      assert added == [startOffset, startOffset + 1, startOffset + 2];
      RenderDays(startOffset, endOffset, Prepend);
      if isOpen && !old(isRendering) {
        assert daySections.Keys == keys + Elements(added);
        assert container == added + before;
      }
    }

    /** `loadMoreFuture`: the three days after the latest rendered one, at the bottom. */
    method LoadMoreFuture()
      requires Valid() && (isOpen && !isRendering ==> container != [])
      modifies this
      ensures Valid()
      ensures isOpen == old(isOpen) && referenceDate == old(referenceDate)
      ensures focusedDayOffset == old(focusedDayOffset) && lastFocusedDayOffset == old(lastFocusedDayOffset)
      ensures currentVisibleDate == old(currentVisibleDate) && notifications == old(notifications)
      ensures !isOpen || old(isRendering) ==>
                daySections == old(daySections) && container == old(container) && isRendering == old(isRendering)
      ensures isOpen && !old(isRendering) ==>
                !isRendering
                && daySections.Keys == old(daySections).Keys + Elements(FutureDays(old(container)))
                && container == old(container) + FutureDays(old(container))
    {
      if container == [] {
        return;
      }
      var currentMax := MaxOffset(container);
      var startOffset, endOffset := currentMax + 1, currentMax + 3;
      forall x | startOffset <= x <= endOffset ensures x !in daySections.Keys {
        assert x !in Elements(container);
      }
      ghost var keys, before := daySections.Keys, container;
      ThreeMissing(startOffset, keys);
      ghost var added := FutureDays(before);
      assert added == [startOffset, startOffset + 1, startOffset + 2];
      RenderDays(startOffset, endOffset, Append);
      if isOpen && !old(isRendering) {
        assert daySections.Keys == keys + Elements(added);
        assert container == before + added;
      }
    }

    /**
     * `onScroll`: near the top, load the past; otherwise near the bottom, load the future.
     * When both hold, the past render is still running when the future one is asked for, so
     * the guard drops the latter.
     */
    method OnScroll(scrollTop: int, scrollHeight: int, clientHeight: int)
      requires Valid() && (isOpen && !isRendering ==> container != [])
      modifies this
      ensures Valid() && isOpen == old(isOpen) && (old(Contiguous()) ==> Contiguous())
      ensures referenceDate == old(referenceDate) && notifications == old(notifications)
      ensures currentVisibleDate == old(currentVisibleDate) && focusedDayOffset == old(focusedDayOffset)
      ensures lastFocusedDayOffset == old(lastFocusedDayOffset)
      ensures var nearTop := scrollTop < LoadMoreThreshold;
              var nearBottom := scrollTop + clientHeight > scrollHeight - LoadMoreThreshold;
              if !isOpen || old(isRendering) || (!nearTop && !nearBottom) then
                daySections == old(daySections) && container == old(container) && isRendering == old(isRendering)
              else if nearTop then
                daySections.Keys == old(daySections).Keys + Elements(PastDays(old(container)))
                && container == PastDays(old(container)) + old(container) && !isRendering
              else
                daySections.Keys == old(daySections).Keys + Elements(FutureDays(old(container)))
                && container == old(container) + FutureDays(old(container)) && !isRendering
    {
      if !isOpen {
        return;
      }
      ghost var before := container;
      if scrollTop < LoadMoreThreshold {
        LoadMorePast();
        if !old(isRendering) && before != [] && old(Contiguous()) {
          PastContiguous(before, container);
        }
      } else if scrollTop + clientHeight > scrollHeight - LoadMoreThreshold {
        LoadMoreFuture();
        if !old(isRendering) && before != [] && old(Contiguous()) {
          FutureContiguous(before, container);
        }
      }
    }

    /** Record the announcement of a new visible day. */
    method OnVisibleDayChanged(date: Date)
      modifies this
      ensures notifications == old(notifications) + [date]
      ensures isOpen == old(isOpen) && referenceDate == old(referenceDate) && daySections == old(daySections)
      ensures container == old(container) && isRendering == old(isRendering)
      ensures focusedDayOffset == old(focusedDayOffset) && lastFocusedDayOffset == old(lastFocusedDayOffset)
      ensures currentVisibleDate == old(currentVisibleDate)
    {
      notifications := notifications + [date];
    }

    /**
     * The IntersectionObserver callback: while the focused day intersects, nothing changes;
     * otherwise the lock is released, and the top-most entry's day becomes the visible day,
     * announced only when its date differs from the current one.
     */
    method OnIntersection(entries: seq<Entry>)
      requires Valid()
      modifies this
      ensures Valid()
      ensures isOpen == old(isOpen) && referenceDate == old(referenceDate) && daySections == old(daySections)
      ensures container == old(container) && isRendering == old(isRendering)
      ensures lastFocusedDayOffset == old(lastFocusedDayOffset)
      ensures old(focusedDayOffset).Some? && FocusedVisible(entries, old(focusedDayOffset).value) ==>
                focusedDayOffset == old(focusedDayOffset)
                && currentVisibleDate == old(currentVisibleDate) && notifications == old(notifications)
      ensures !(old(focusedDayOffset).Some? && FocusedVisible(entries, old(focusedDayOffset).value)) ==>
                focusedDayOffset == None
                && ((forall j :: 0 <= j < |entries| ==> !Eligible(entries[j])) ==>
                      currentVisibleDate == old(currentVisibleDate) && notifications == old(notifications))
                && (forall i :: IsTopMost(entries, i) ==>
                      var o := entries[i].offset;
                      if o in daySections && old(currentVisibleDate) != Some(daySections[o]) then
                        currentVisibleDate == Some(daySections[o]) && notifications == old(notifications) + [daySections[o]]
                      else
                        currentVisibleDate == old(currentVisibleDate) && notifications == old(notifications))
    {
      if focusedDayOffset.Some? {
        if !FocusedVisible(entries, focusedDayOffset.value) {
          focusedDayOffset := None;
        } else {
          return;
        }
      }
      var topMost := TopMostEntry(entries);
      if topMost.Some? {
        var offset := entries[topMost.value].offset;
        forall i | IsTopMost(entries, i) ensures i == topMost.value {
          TopMostUnique(entries, i, topMost.value);
        }
        if offset in daySections {
          var date := daySections[offset];
          if currentVisibleDate != Some(date) {
            currentVisibleDate := Some(date);
            OnVisibleDayChanged(date);
          }
        }
      }
    }

    /** `onEditorClick`: the clicked day is locked as focused and becomes the visible day. */
    method OnEditorClick(clickedOffset: Option<int>)
      requires Valid()
      modifies this
      ensures Valid()
      ensures isOpen == old(isOpen) && referenceDate == old(referenceDate) && daySections == old(daySections)
      ensures container == old(container) && isRendering == old(isRendering)
      ensures clickedOffset.None? || clickedOffset.value !in daySections ==>
                focusedDayOffset == old(focusedDayOffset) && lastFocusedDayOffset == old(lastFocusedDayOffset)
                && currentVisibleDate == old(currentVisibleDate) && notifications == old(notifications)
      ensures clickedOffset.Some? && clickedOffset.value in daySections ==>
                var date := daySections[clickedOffset.value];
                focusedDayOffset == clickedOffset && lastFocusedDayOffset == clickedOffset
                && currentVisibleDate == Some(date)
                && notifications == old(notifications) + (if old(currentVisibleDate) == Some(date) then [] else [date])
    {
      if clickedOffset.Some? {
        var offset := clickedOffset.value;
        if offset in daySections {
          var date := daySections[offset];
          focusedDayOffset := Some(offset);
          lastFocusedDayOffset := Some(offset);
          if currentVisibleDate != Some(date) {
            currentVisibleDate := Some(date);
            OnVisibleDayChanged(date);
          }
        }
      }
    }

    /**
     * `goToDate`: the target becomes the reference date, the window is rebuilt as offsets
     * -3..6 (when the view is open), and the target is announced once.
     */
    method GoToDate(target: Date)
      requires Valid() && ValidDate(target)
      modifies this
      ensures Valid() && Contiguous()
      ensures referenceDate == target && isOpen == old(isOpen)
      ensures isOpen ==> container == Range(-3, 6) && !isRendering
                         && (forall o :: o in daySections <==> -3 <= o <= 6)
      ensures !isOpen ==> daySections == map[] && container == [] && isRendering == old(isRendering)
      ensures forall o :: o in daySections ==> daySections[o] == AddDays(target, o)
      ensures currentVisibleDate == Some(target) && notifications == old(notifications) + [target]
      ensures focusedDayOffset == old(focusedDayOffset) && lastFocusedDayOffset == old(lastFocusedDayOffset)
    {
      referenceDate := target;
      InitialWindow();
      RenderDays(-3, 6, Replace);
      assert isOpen ==> daySections.Keys == Elements(Range(-3, 6));
      assert !isOpen ==> daySections.Keys == {};
      currentVisibleDate := Some(target);
      OnVisibleDayChanged(target);
    }

    /** `scrollToToday`: go to today's date (the clock is a parameter). */
    method ScrollToToday(today: Date)
      requires Valid() && ValidDate(today)
      modifies this
      ensures Valid() && Contiguous()
      ensures referenceDate == today && isOpen == old(isOpen)
      ensures isOpen ==> container == Range(-3, 6) && !isRendering
                         && (forall o :: o in daySections <==> -3 <= o <= 6)
      ensures !isOpen ==> daySections == map[] && container == [] && isRendering == old(isRendering)
      ensures forall o :: o in daySections ==> daySections[o] == AddDays(today, o)
      ensures currentVisibleDate == Some(today) && notifications == old(notifications) + [today]
      ensures focusedDayOffset == old(focusedDayOffset) && lastFocusedDayOffset == old(lastFocusedDayOffset)
    {
      GoToDate(today);
    }

    /** `onOpen`: the view opens on today, with offsets -3..6 and today announced. */
    method OnOpen(today: Date)
      requires Valid() && ValidDate(today)
      modifies this
      ensures Valid() && Contiguous()
      ensures isOpen && !isRendering && referenceDate == today
      ensures container == Range(-3, 6) && (forall o :: o in daySections <==> -3 <= o <= 6)
      ensures forall o :: o in daySections ==> daySections[o] == AddDays(today, o)
      ensures currentVisibleDate == Some(today) && notifications == old(notifications) + [today]
      ensures focusedDayOffset == old(focusedDayOffset) && lastFocusedDayOffset == old(lastFocusedDayOffset)
    {
      referenceDate := today;
      isOpen := true;
      InitialWindow();
      RenderDays(-3, 6, Replace);
      assert daySections.Keys == Elements(Range(-3, 6));
      currentVisibleDate := Some(today);
      OnVisibleDayChanged(today);
    }

    /** `getLastFocusedEditor`: the section of the last clicked day, while it is rendered. */
    function LastFocusedSection(): (r: Option<Date>)
      reads this
      requires Valid()
      ensures r.Some? <==> lastFocusedDayOffset.Some? && lastFocusedDayOffset.value in daySections
      ensures r.Some? ==> r.value == AddDays(referenceDate, lastFocusedDayOffset.value)
    {
      if lastFocusedDayOffset.Some? && lastFocusedDayOffset.value in daySections
      then Some(daySections[lastFocusedDayOffset.value])
      else None
    }
  }
}
