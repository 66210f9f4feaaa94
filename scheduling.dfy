/**
 * The scheduling decisions of the app (src/App.js): `isDateInPast`, the
 * conflict test inside the form's submit handler, and the submit handler's
 * guard lifted into a pure function from the form's fields and the current
 * store to the new store and the message shown.
 *
 * The clock is the parameter `now`; the UUID `uuid()` yields is `freshId`.
 * A date is a day number, a time of day a `Minute`; the slot label "H:MM"
 * stands for minute 60 * H + MM, and an unselected time ("") for `None`.
 */
module Scheduling {

  import opened Wrappers
  import opened EventStore
  import opened JsText

  const MinutesPerDay: int := 1440

  /** A time of day, in minutes since midnight. */
  type Minute = m: int | 0 <= m < MinutesPerDay

  /** The instant `${date}T${time}` denotes. */
  function At(day: int, time: Minute): Instant
  {
    day * MinutesPerDay + time
  }

  /** The calendar day an instant falls on (rounding down, also before day 0). */
  function DayOf(t: Instant): int
  {
    t / MinutesPerDay
  }

  /** Midnight of the day `now` falls on: `currentDate.setHours(0, 0, 0, 0)`. */
  function Midnight(now: Instant): (r: Instant)
    ensures r <= now < r + MinutesPerDay
    ensures r % MinutesPerDay == 0
  {
    DayOf(now) * MinutesPerDay
  }

  /** `isDateInPast(date)` with the clock reading `now`: the comparison is
      by calendar day, so it holds exactly when `date` lies on an earlier day
      than `now`. */
  function IsDateInPast(date: Instant, now: Instant): (r: bool)
    ensures r <==> DayOf(date) < DayOf(now)
  {
    date < Midnight(now)
  }

  /** The day of `${date}T${time}` is `date`, whatever the time. */
  lemma DayOfAt(day: int, time: Minute)
    ensures DayOf(At(day, time)) == day
  {
  }

  /** A time on an earlier date is past; any time today, however early, and
      any later date is not. */
  lemma PastIffEarlierDate(day: int, time: Minute, now: Instant)
    ensures IsDateInPast(At(day, time), now) <==> day < DayOf(now)
  {
    DayOfAt(day, time);
  }

  // ---------------------------------------------------------------------------
  // The conflict test

  /** The test of src/App.js:132-135 for one existing event, with the
      comparisons made on instants: the candidate's start lies in
      `[e.start, e.end)` or its end lies in `(e.start, e.end]`. For a
      candidate that ends after it starts, a flagged conflict is a real
      overlap. */
  predicate ConflictsWith(e: Event, start: Instant, end: Instant)
    ensures start < end && ConflictsWith(e, start, end) ==> Overlaps(start, end, e.start, e.end)
  {
    (start >= e.start && start < e.end) || (end > e.start && end <= e.end)
  }

  /** `state.events.some(...)` over the conflict test. */
  function HasConflict(events: seq<Event>, start: Instant, end: Instant): (r: bool)
    ensures r <==> exists i :: 0 <= i < |events| && ConflictsWith(events[i], start, end)
  {
    if events == [] then false
    else if ConflictsWith(events[0], start, end) then true
    else
      var rest := HasConflict(events[1..], start, end);
      assert forall i :: 1 <= i < |events| ==> events[i] == events[1..][i - 1];
      rest
  }

  /** Intersection of the half-open intervals `[aStart, aEnd)` and
      `[bStart, bEnd)`: the notion of overlap a calendar means. */
  predicate Overlaps(aStart: Instant, aEnd: Instant, bStart: Instant, bEnd: Instant)
  {
    aStart < bEnd && bStart < aEnd
  }

  /** The overlaps the test misses are exactly those where the candidate
      strictly encloses the existing event. */
  lemma MissedOverlapIsEnclosure(e: Event, start: Instant, end: Instant)
    requires start < end && e.start < e.end
    ensures Overlaps(start, end, e.start, e.end) && !ConflictsWith(e, start, end)
            <==> start < e.start && e.end < end
  {
  }

  /** Back-to-back events, either way round, are not in conflict. */
  lemma BackToBackIsNoConflict(e: Event, start: Instant, end: Instant)
    requires start < end
    requires e.end == start || end == e.start
    ensures !ConflictsWith(e, start, end)
  {
  }

  // ---------------------------------------------------------------------------
  // The test as written: string bounds against Date objects

  /** A JavaScript number as a relational comparison sees it. */
  datatype JsNumber = Num(value: int) | NaN

  predicate JsLess(a: JsNumber, b: JsNumber)
  {
    a.Num? && b.Num? && a.value < b.value
  }

  predicate JsAtMost(a: JsNumber, b: JsNumber)
  {
    a.Num? && b.Num? && a.value <= b.value
  }

  /** The conflict test with its operands as JavaScript compares them: the
      existing bounds are `Date` objects, so they become their time values,
      while `start` and `end` are whatever the candidate's bounds become. In
      src/App.js:124-125 they are template strings such as
      "2030-01-01T9:00", whose numeric value is NaN, and then the test never
      fires; on numbers it is `ConflictsWith`. */
  predicate ConflictsAsWritten(e: Event, start: JsNumber, end: JsNumber)
    ensures start.NaN? && end.NaN? ==> !ConflictsAsWritten(e, start, end)
    ensures start.Num? && end.Num? ==>
              (ConflictsAsWritten(e, start, end) <==> ConflictsWith(e, start.value, end.value))
  {
    (JsAtMost(Num(e.start), start) && JsLess(start, Num(e.end)))
    || (JsLess(Num(e.start), end) && JsAtMost(end, Num(e.end)))
  }

  /** With string bounds coerced to NaN, the written test never fires: an
      exact copy of an existing event passes, which `ConflictsWith` rejects. */
  lemma DuplicateAcceptedAsWritten(e: Event)
    requires e.start < e.end
    ensures !ConflictsAsWritten(e, NaN, NaN)
    ensures ConflictsWith(e, e.start, e.end)
  {
  }

  // ---------------------------------------------------------------------------
  // The submit handler

  const AcceptedMessage: string := ""
  const ConflictMessage: string := "Event conflicts with an existing event."
  const IncompleteMessage: string := "Please fill in all fields and select a future date."

  /** What the handler leaves behind: the store and the message shown. */
  datatype Submission = Submission(events: seq<Event>, message: string)

  /** The guard of src/App.js:118-123, stated without `Trim` and
      `IsDateInPast`: both times chosen, the date not before today, and the
      title not blank. It is the source's condition; no order between start
      and end is demanded. */
  predicate PassesGuard(title: string, day: int, start: Option<Minute>, end: Option<Minute>, now: Instant)
    ensures PassesGuard(title, day, start, end, now) <==>
              && !(start.Some? && IsDateInPast(At(day, start.value), now))
              && start.Some? && end.Some?
              && Trim(title) != ""
  {
    TrimEmptyIffBlank(title);
    start.Some? && end.Some? && DayOf(now) <= day && !Blank(title)
  }

  /** The submit handler. The start instant is only checked for being past
      when a start time is chosen: with none, `${date}T` is an invalid date,
      and comparisons with it are false. */
  function Submit(events: seq<Event>, title: string, day: int, start: Option<Minute>,
                  end: Option<Minute>, now: Instant, freshId: Id): (r: Submission)
    ensures !PassesGuard(title, day, start, end, now) ==> r == Submission(events, IncompleteMessage)
    ensures PassesGuard(title, day, start, end, now)
            && (exists i :: 0 <= i < |events| && ConflictsWith(events[i], At(day, start.value), At(day, end.value)))
            ==> r == Submission(events, ConflictMessage)
    ensures PassesGuard(title, day, start, end, now)
            && (forall i :: 0 <= i < |events| ==> !ConflictsWith(events[i], At(day, start.value), At(day, end.value)))
            ==> r == Submission(events + [Event(freshId, title, At(day, start.value), At(day, end.value))],
                                AcceptedMessage)
  {
    TrimEmptyIffBlank(title);
    var past := start.Some? && IsDateInPast(At(day, start.value), now);
    if !past && start.Some? && end.Some? && Trim(title) != "" then
      var s := At(day, start.value);
      var e := At(day, end.value);
      if !HasConflict(events, s, e) then
        Submission(Reduce(events, AddEvent(s, e, title), freshId), AcceptedMessage)
      else
        Submission(events, ConflictMessage)
    else
      Submission(events, IncompleteMessage)
  }

  /** A submission with a fresh id keeps the store's ids unique. */
  lemma SubmitPreservesUniqueIds(events: seq<Event>, title: string, day: int, start: Option<Minute>,
                                 end: Option<Minute>, now: Instant, freshId: Id)
    requires UniqueIds(events)
    requires freshId !in Ids(events)
    ensures UniqueIds(Submit(events, title, day, start, end, now, freshId).events)
  {
    if PassesGuard(title, day, start, end, now) {
      var s, e := At(day, start.value), At(day, end.value);
      ReducePreservesUniqueIds(events, AddEvent(s, e, title), freshId);
    }
  }

  /** The guard does not compare end with start: on an empty calendar, an
      event from 10:00 to 9:00 on any day not yet past is stored. */
  lemma EndBeforeStartIsAccepted(title: string, day: int, now: Instant, freshId: Id)
    requires !Blank(title) && DayOf(now) <= day
    ensures Submit([], title, day, Some(600), Some(540), now, freshId)
            == Submission([Event(freshId, title, At(day, 600), At(day, 540))], AcceptedMessage)
  {
  }

  /** As written, a candidate that strictly encloses an existing event is
      accepted: 10:00-11:00 and then 9:00-12:00 on the same day are both
      stored, and the two stored events overlap. */
  lemma EnclosingCandidateIsAccepted(talk: string, workshop: string, day: int, now: Instant)
    requires !Blank(talk) && !Blank(workshop) && DayOf(now) <= day
    ensures var first := Submit([], talk, day, Some(600), Some(660), now, 1);
      && first.message == AcceptedMessage
      && var second := Submit(first.events, workshop, day, Some(540), Some(720), now, 2);
      && second.message == AcceptedMessage
      && |second.events| == 2
      && Overlaps(second.events[0].start, second.events[0].end,
                  second.events[1].start, second.events[1].end)
  {
    var first := Event(1, talk, At(day, 600), At(day, 660));
    assert !ConflictsWith([first][0], At(day, 540), At(day, 720));
  }

  /** A day's walk through the form, with the clock at 10:00 today: a
      9:00-9:30 stand-up today is accepted although 9:00 has gone by; a
      9:15-9:45 sync then conflicts with it; lunch on the day before and an
      empty title get the fill-in message and change nothing. */
  lemma ScenarioOfADay(today: int, standup: string, sync: string, lunch: string)
    requires !Blank(standup) && !Blank(sync) && !Blank(lunch)
    ensures var now := At(today, 600);
      var s1 := Submit([], standup, today, Some(540), Some(570), now, 1);
      && s1 == Submission([Event(1, standup, At(today, 540), At(today, 570))], AcceptedMessage)
      && Submit(s1.events, sync, today, Some(555), Some(585), now, 2) == Submission(s1.events, ConflictMessage)
      && Submit(s1.events, lunch, today - 1, Some(720), Some(780), now, 3) == Submission(s1.events, IncompleteMessage)
      && Submit(s1.events, "", today, Some(840), Some(870), now, 4) == Submission(s1.events, IncompleteMessage)
  {
    var now := At(today, 600);
    DayOfAt(today, 600);
    var first := Event(1, standup, At(today, 540), At(today, 570));
    assert ConflictsWith([first][0], At(today, 555), At(today, 585));
  }
}
