# Calendar event store and scheduling guard

This project models the decision logic of a single-page calendar app (`src/App.js`).

- **The event reducer.** `eventsReducer` with its two action types holds an ordered list of events `{id, title, start, end}`. `ADD_EVENT` appends an event under a fresh UUID. `DELETE_EVENT` filters out every event carrying a given id. Any other action leaves the state unchanged.
- **The submit handler's guard.** The handler refuses a submission when a time is missing, the title is blank after `trim()`, or the date is before today; the message is then "Please fill in all fields and select a future date.". It is meant to refuse, with "Event conflicts with an existing event.", a submission whose start lies in `[eStart, eEnd)` or whose end lies in `(eStart, eEnd]` of an existing event; as written, that comparison never fires (see Findings). Otherwise it dispatches `ADD_EVENT` with the raw title and clears the message.
- **Two helpers.** `isDateInPast` compares with midnight of the current day. `generateTimeSlots` lists "8:00", "8:30", …, "20:30".

Modules, one per concern of `src/App.js`:

- `EventStore` (`events.dfy`): the reducer as a pure function over `seq<Event>`.
- `Scheduling` (`scheduling.dfy`): `isDateInPast`, the conflict test, and the submit handler lifted into the pure function `Submit`. `Submit` maps the store and the form's fields to the new store and the message.
- `JsText` (`jstext.dfy`): `String.prototype.trim`, by ECMAScript's white-space and line-terminator code points.
- `TimeSlots` (`timeslots.dfy`): `generateTimeSlots` as a method with the source's `for` loop, plus the decimal rendering of the hour by a template literal.
- `Wrappers` (`wrappers.dfy`): `Option`.

Abstractions:

- The clock (`new Date()`) becomes the parameter `now`.
- `uuid()` becomes the parameter `freshId`. The lemmas that need it fresh require that no stored event carries it.
- An instant is an integer count of minutes from midnight of day 0. A date is a day number. A time of day is a `Minute` (0 to 1439).
- The slot label "H:MM" stands for minute 60·H + MM. The unselected option `""` stands for `None`.

Where the code and the design description of the app disagree, the model follows the code:

- The code has one message for an incomplete form and a past date. It has no separate past-date rejection.
- The code never checks that the end comes after the start (`EndBeforeStartIsAccepted`).
- The conflict test of src/App.js:132-135 is not interval overlap. It asks whether the candidate's start lies in `[eStart, eEnd)` or its end lies in `(eStart, eEnd]`. A candidate that strictly encloses an existing event is therefore not flagged. `MissedOverlapIsEnclosure` proves that these are exactly the overlaps the test misses. `EnclosingCandidateIsAccepted` shows the store reaching two overlapping events. `Submit` uses the test as written.
- The test as written also compares template strings with `Date` objects (see Findings). The model compares instants, which is the evident intent.

## Model

| member | source | states |
|---|---|---|
| EventStore.Remove | src/App.js:33-36 | the filtered list is no longer than the input and no event in it carries the target id |
| EventStore.RemoveMembers | src/App.js:35 | an event is in the filtered list iff it is in the input and its id differs from the target |
| EventStore.Reduce | src/App.js:19-40 | ADD_EVENT gives a list one longer whose prefix is the old list and whose new last event carries the fresh id; DELETE_EVENT gives a list no longer than before in which no event carries the target id (the default branch: `UnrecognisedTypeIsIdentity`; exact contents: `AddAppendsOne`, `DeleteKeepsExactlyTheOthers`, `DeletePreservesOrder`) |
| EventStore.AddAppendsOne | src/App.js:21-32 | ADD_EVENT gives a list one longer whose prefix is the old list unchanged and whose last event has the payload's title, start and end and the fresh id |
| EventStore.ReducePreservesUniqueIds | src/App.js:19-40 | if the ids are unique and, for ADD_EVENT, the generated id is fresh, the ids stay unique after any action |
| EventStore.RemoveKeepsIdsUnique | src/App.js:35 | filtering a list with unique ids keeps them unique |
| EventStore.DeleteKeepsExactlyTheOthers | src/App.js:33-36 | after DELETE_EVENT each event with another id occurs exactly as often as before, events with the target id not at all, and nothing is added |
| EventStore.DeletePreservesOrder | src/App.js:35 | filtering a concatenation is the concatenation of the filtered parts, so survivors keep their order |
| EventStore.DeleteAbsentIsIdentity | src/App.js:33-36 | deleting an id no event carries leaves the list unchanged |
| EventStore.DeleteIdempotent | src/App.js:33-36 | deleting an id twice equals deleting it once |
| EventStore.AddThenDeleteRestores | src/App.js:21-36 | adding under a fresh id and then deleting that id gives back the previous list |
| EventStore.UnrecognisedTypeIsIdentity | src/App.js:14-17 | an action whose type is neither "ADD_EVENT" nor "DELETE_EVENT" returns the state unchanged (default branch, lines 37-38) |
| JsText.TrimStart | src/App.js:122 | the result is a suffix of the input, the part dropped is all white space, and the result does not start with white space |
| JsText.TrimEnd | src/App.js:122 | the result is a prefix of the input, the part dropped is all white space, and the result does not end with white space |
| JsText.Trim | src/App.js:122 | the trimmed title is the title with only a blank prefix and a blank suffix removed, and it neither starts nor ends with white space |
| JsText.TrimEmptyIffBlank | src/App.js:122 | `title.trim()` is empty exactly when every character of the title is white space |
| Scheduling.Midnight | src/App.js:56-57 | midnight of the current day is at most the current instant, less than a day before it, and falls on a day boundary |
| Scheduling.IsDateInPast | src/App.js:55-59 | a date is past exactly when its calendar day is before the current one |
| Scheduling.DayOfAt | src/App.js:114-116 | the instant built from a date and a time falls on that date |
| Scheduling.PastIffEarlierDate | src/App.js:118-119 | a date and start time is past iff the date is before today, so any time today is never past |
| Scheduling.HasConflict | src/App.js:128-136 | the `some` test holds iff some stored event passes the conflict test |
| Scheduling.ConflictsWith | src/App.js:132-135 | the test on one event (start in `[eStart, eEnd)` or end in `(eStart, eEnd]`); for a candidate that ends after it starts, a flagged conflict is a real half-open overlap |
| Scheduling.MissedOverlapIsEnclosure | src/App.js:132-135 | for proper intervals, an overlap escapes the test iff the candidate strictly encloses the existing event |
| Scheduling.BackToBackIsNoConflict | src/App.js:132-135 | a candidate starting when an event ends, or ending when it starts, is not in conflict with it |
| Scheduling.ConflictsAsWritten | src/App.js:132-135 | the four comparisons as JavaScript evaluates them: with NaN bounds (the template strings of lines 124-125) the test is false, and with numeric bounds it is exactly `ConflictsWith` |
| Scheduling.DuplicateAcceptedAsWritten | src/App.js:124-135 | with the candidate's string bounds coerced to NaN, the written test misses even an exact copy of an existing event, which the instant test flags |
| Scheduling.PassesGuard | src/App.js:118-122 | the source's condition (start not past, start and end times chosen, trimmed title non-empty) holds iff both times are chosen, the date is not before today and the title is not blank |
| Scheduling.Submit | src/App.js:112-155 | an incomplete or past submission gives the fill-in message and leaves the store; otherwise a conflict with some event gives the conflict message and leaves the store; otherwise the event with the raw title, the fresh id and the chosen instants is appended and the message cleared |
| Scheduling.SubmitPreservesUniqueIds | src/App.js:138-146 | a submission under a fresh id keeps the store's ids unique |
| Scheduling.EndBeforeStartIsAccepted | src/App.js:118-123 | on an empty calendar, a 10:00-9:00 event with a non-blank title on a day not yet past is stored as submitted |
| Scheduling.EnclosingCandidateIsAccepted | src/App.js:128-146 | for any non-blank titles and any day not yet past, 10:00-11:00 and then 9:00-12:00 are both accepted, and the two stored events overlap |
| Scheduling.ScenarioOfADay | src/App.js:112-155 | with the clock at 10:00 on any day and any non-blank titles: a 9:00-9:30 event that day is stored, 9:15-9:45 then conflicts, the day before and an empty title get the fill-in message, and the store changes only on the first |
| TimeSlots.DecimalString | src/App.js:48-49 | the rendering of an hour is a non-empty string of digits without a leading zero |
| TimeSlots.ParseDecimalString | src/App.js:48-49 | reading the decimal rendering of a number gives back that number |
| TimeSlots.DecimalStringInjective | src/App.js:48-49 | different hours render differently |
| TimeSlots.SlotLabelsDistinct | src/App.js:179-183 | no two slot positions carry the same label, so the labels are sound option keys |
| TimeSlots.GenerateTimeSlots | src/App.js:42-53 | the list has 26 entries; entry i is hour 8 + i/2 followed by ":00" for even i and ":30" for odd i; the first is "8:00" and the last "20:30" |

## Left out

- `src/EventItem.js`: presentation only. It renders a title and the formatted times and forwards a delete click.
- The React, Formik and FullCalendar wiring: the `useState` setters, `resetForm`, the `customTheme` object and the JSX. These are UI plumbing.
- `uuid()`: the model takes the id as a parameter. Randomness and uniqueness of real UUIDs are not modelled.
- `new Date()`: the clock reading is the parameter `now`.
- Parsing `${date}T${time}` with `Date`, time zones and local-time rules are not modelled. Instants are plain minute counts. The slot labels are not zero-padded ("8:00"), so how an engine parses them is not captured.
- A date left unselected is not modelled: the date is always a day number. In the source, an empty date yields an invalid `Date`, which `isDateInPast` reports as not past, so the guard does not catch it.
- Actions whose payload does not match their type are not modelled: an action is one of three constructors, and `Other` carries a type string that is neither of the two constants.
- The string-to-NaN coercion of the conflict test is modelled only at the level of one comparison (`ConflictsAsWritten`); `Submit` follows the evident numeric intent.

## Findings

| source | as written | input that shows it | evidently intended | confidence | as-written member | corrected member |
|---|---|---|---|---|---|---|
| src/App.js:124-135 | `start` and `end` are template strings and are compared with `Date` objects, so JavaScript converts the string to a number, gets NaN, and every comparison is false: `hasConflict` is always false | an existing event 9:00-9:30 on a future day, and the same date and times submitted again: accepted | compare the candidate's instants numerically with the event's | high; not executed | Scheduling.DuplicateAcceptedAsWritten | Scheduling.HasConflict |
