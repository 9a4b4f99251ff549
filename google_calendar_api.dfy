/**
 * `GoogleCalendarAPI`: how the raw items of a Calendar `events.list` response become the
 * plugin's events, and the authentication check made before any request.
 */
module GoogleCalendarApi {
  import opened Wrappers
  import opened WikiLinkFormatter

  /** The `start` or `end` of a raw item: a timed event has `dateTime`, an all-day event `date`. */
  datatype RawTime = RawTime(dateTime: Option<string>, date: Option<string>)

  /** A raw attendee; `self` marks the calendar's owner. */
  datatype RawAttendee = RawAttendee(email: Option<string>, displayName: Option<string>, self: Option<bool>)

  /** A raw item of the response; every field may be missing. */
  datatype RawEvent = RawEvent(
    id: Option<string>,
    summary: Option<string>,
    start: Option<RawTime>,
    end: Option<RawTime>,
    attendees: Option<seq<RawAttendee>>)

  /** `CalendarEvent`: the normalised event. */
  datatype CalendarEvent = CalendarEvent(
    id: string,
    summary: string,
    start: string,
    end: string,
    attendees: seq<Attendee>)

  /** A string the JavaScript `||` keeps: present and not empty. */
  predicate Truthy(s: Option<string>) {
    s.Some? && s.value != []
  }

  /** `s || fallback`. */
  function OrElse(s: Option<string>, fallback: string): (r: string)
    ensures Truthy(s) ==> r == s.value
    ensures !Truthy(s) ==> r == fallback
  {
    if Truthy(s) then s.value else fallback
  }

  /** `t?.dateTime || t?.date || ''`. */
  function TimeOf(t: Option<RawTime>): (r: string)
    ensures t.Some? && Truthy(t.value.dateTime) ==> r == t.value.dateTime.value
    ensures t.Some? && !Truthy(t.value.dateTime) && Truthy(t.value.date) ==> r == t.value.date.value
    ensures (t.None? || (!Truthy(t.value.dateTime) && !Truthy(t.value.date))) ==> r == []
  {
    if t.None? then [] else OrElse(t.value.dateTime, OrElse(t.value.date, []))
  }

  /** The attendee filter: a non-empty email, and not marked `self`. */
  predicate Kept(a: RawAttendee) {
    Truthy(a.email) && a.self != Some(true)
  }

  /** A kept attendee; an empty display name becomes absent. */
  function ToAttendee(a: RawAttendee): (r: Attendee)
    requires Kept(a)
    ensures r.email == a.email.value && r.email != []
    ensures r.displayName == (if Truthy(a.displayName) then a.displayName else None)
  {
    Attendee(a.email.value, if Truthy(a.displayName) then a.displayName else None)
  }

  /** `(attendees || []).filter(Kept).map(ToAttendee)`. */
  function FilterAttendees(attendees: seq<RawAttendee>): (r: seq<Attendee>)
    ensures |r| <= |attendees|
    ensures forall i :: 0 <= i < |r| ==> r[i].email != [] && (r[i].displayName.Some? ==> r[i].displayName.value != [])
  {
    if attendees == [] then []
    else (if Kept(attendees[0]) then [ToAttendee(attendees[0])] else []) + FilterAttendees(attendees[1..])
  }

  /** The filter works element by element: filtering a concatenation concatenates the results. */
  lemma {:induction false} FilterAttendeesAppend(a: seq<RawAttendee>, b: seq<RawAttendee>)
    ensures FilterAttendees(a + b) == FilterAttendees(a) + FilterAttendees(b)
    decreases |a|
  {
    if a == [] {
      assert a + b == b;
    } else {
      FilterAttendeesAppend(a[1..], b);
      assert (a + b)[0] == a[0] && (a + b)[1..] == a[1..] + b;
      var head := if Kept(a[0]) then [ToAttendee(a[0])] else [];
      assert FilterAttendees(a + b) == head + FilterAttendees(a[1..] + b);
      assert FilterAttendees(a) == head + FilterAttendees(a[1..]);
    }
  }

  /** One attendee is kept, converted, exactly when it has a non-empty email and is not the owner. */
  lemma FilterOneAttendee(a: RawAttendee)
    ensures FilterAttendees([a]) == if Kept(a) then [ToAttendee(a)] else []
  {
    assert [a][1..] == [];
  }

  /** The attendees kept, counted. */
  function KeptCount(attendees: seq<RawAttendee>): nat {
    if attendees == [] then 0 else (if Kept(attendees[0]) then 1 else 0) + KeptCount(attendees[1..])
  }

  /** The filter keeps exactly as many attendees as pass the test. */
  lemma {:induction false} FilterAttendeesCount(attendees: seq<RawAttendee>)
    ensures |FilterAttendees(attendees)| == KeptCount(attendees)
    ensures KeptCount(attendees) == |attendees| <==> forall i :: 0 <= i < |attendees| ==> Kept(attendees[i])
  {
    if attendees != [] {
      FilterAttendeesCount(attendees[1..]);
      if KeptCount(attendees) == |attendees| {
        forall i | 0 <= i < |attendees| ensures Kept(attendees[i]) {
          if i > 0 {
            assert attendees[1..][i - 1] == attendees[i];
          }
        }
      }
      if forall i :: 0 <= i < |attendees| ==> Kept(attendees[i]) {
        assert forall i :: 0 <= i < |attendees[1..]| ==> Kept(attendees[1..][i]) by {
          forall i | 0 <= i < |attendees[1..]| ensures Kept(attendees[1..][i]) {
            assert attendees[1..][i] == attendees[i + 1];
          }
        }
      }
    }
  }

  /** The map applied to one raw item. */
  function NormalizeEvent(e: RawEvent): (r: CalendarEvent)
    ensures r.id == OrElse(e.id, [])
    ensures r.summary == OrElse(e.summary, "Untitled Event") && r.summary != []
    ensures r.start == TimeOf(e.start) && r.end == TimeOf(e.end)
    ensures r.attendees == FilterAttendees(if e.attendees.Some? then e.attendees.value else [])
  {
    CalendarEvent(
      OrElse(e.id, []),
      OrElse(e.summary, "Untitled Event"),
      TimeOf(e.start),
      TimeOf(e.end),
      FilterAttendees(if e.attendees.Some? then e.attendees.value else []))
  }

  /** `events.map(NormalizeEvent)`: one event per item, in the same order. */
  function NormalizeEvents(items: seq<RawEvent>): (r: seq<CalendarEvent>)
    ensures |r| == |items|
    ensures forall i :: 0 <= i < |items| ==> r[i] == NormalizeEvent(items[i])
  {
    if items == [] then [] else [NormalizeEvent(items[0])] + NormalizeEvents(items[1..])
  }

  const NotAuthenticated: string := "Not authenticated with Google Calendar"

  /**
   * `getEventsForDate`, once the request is answered: an error when not authenticated,
   * the request's error when it failed, and otherwise the normalised items (none when the
   * response has no `items`).
   */
  function GetEventsForDate(authenticated: bool, response: Result<Option<seq<RawEvent>>>): (r: Result<seq<CalendarEvent>>)
    ensures !authenticated ==> r == Failure(NotAuthenticated)
    ensures authenticated && response.Failure? ==> r == Failure(response.error)
    ensures authenticated && response.Success? && response.value.None? ==> r == Success([])
    ensures authenticated && response.Success? && response.value.Some? ==>
              r.Success? && |r.value| == |response.value.value|
              && forall i :: 0 <= i < |r.value| ==> r.value[i] == NormalizeEvent(response.value.value[i])
  {
    if !authenticated then Failure(NotAuthenticated)
    else match response
      case Failure(e) => Failure(e)
      case Success(items) => Success(NormalizeEvents(if items.Some? then items.value else []))
  }

  /** Without authentication the response plays no part: the error is raised before any request. */
  lemma NoRequestWithoutAuthentication(r1: Result<Option<seq<RawEvent>>>, r2: Result<Option<seq<RawEvent>>>)
    ensures GetEventsForDate(false, r1) == GetEventsForDate(false, r2)
  {
  }
}
