/**
 * The event store of the calendar: the reducer that the app's `useReducer`
 * hook drives (src/App.js, `eventsReducer` and `actionTypes`).
 *
 * The reducer is pure: every command builds a new list from the old one.
 * The store is the ordered list of events itself.
 */
module EventStore {

  /** Identity of an event. The app draws a random UUID inside the reducer;
      here the caller supplies it, and the lemmas that need it fresh say so. */
  type Id = nat

  /** A point in local time, in minutes since midnight of day 0. */
  type Instant = int

  datatype Event = Event(id: Id, title: string, start: Instant, end: Instant)

  const AddEventType: string := "ADD_EVENT"
  const DeleteEventType: string := "DELETE_EVENT"

  /** A `type` string the reducer does not recognise. */
  type UnknownType = kind: string | kind != AddEventType && kind != DeleteEventType witness ""

  /** A dispatched action; `Other` is an action of any other type. */
  datatype Action =
    | AddEvent(start: Instant, end: Instant, title: string)
    | DeleteEvent(eventId: Id)
    | Other(kind: UnknownType)

  /** The `type` string an action carries. */
  function TypeOf(action: Action): string
  {
    match action
    case AddEvent(_, _, _) => AddEventType
    case DeleteEvent(_) => DeleteEventType
    case Other(kind) => kind
  }

  function Ids(events: seq<Event>): set<Id>
  {
    set i | 0 <= i < |events| :: events[i].id
  }

  predicate UniqueIds(events: seq<Event>)
  {
    forall i, j :: 0 <= i < j < |events| ==> events[i].id != events[j].id
  }

  /** `events.filter(event => event.id !== id)`: keeps, in order, the events
      whose id differs from `id`. */
  function Remove(events: seq<Event>, id: Id): (r: seq<Event>)
    ensures |r| <= |events|
    ensures forall i :: 0 <= i < |r| ==> r[i].id != id
  {
    if events == [] then []
    else if events[0].id == id then Remove(events[1..], id)
    else [events[0]] + Remove(events[1..], id)
  }

  /** An event survives the filter exactly when it was there and carries
      another id. */
  lemma {:induction false} RemoveMembers(events: seq<Event>, id: Id)
    ensures forall e :: e in Remove(events, id) <==> e in events && e.id != id
  {
    if events != [] {
      RemoveMembers(events[1..], id);
      assert events == [events[0]] + events[1..];
    }
  }

  /** The reducer. `freshId` is the value `uuid()` yields on this call. */
  function Reduce(events: seq<Event>, action: Action, freshId: Id): (r: seq<Event>)
    ensures action.AddEvent? ==> |r| == |events| + 1 && r[..|events|] == events && r[|events|].id == freshId
    ensures action.DeleteEvent? ==> |r| <= |events| && forall i :: 0 <= i < |r| ==> r[i].id != action.eventId
  {
    match action
    case AddEvent(start, end, title) => events + [Event(freshId, title, start, end)]
    case DeleteEvent(eventId) => Remove(events, eventId)
    case Other(_) => events
  }

  /** ADD_EVENT appends exactly one event, built from the payload and the
      fresh id, and leaves the earlier events in place and in order. */
  lemma AddAppendsOne(events: seq<Event>, start: Instant, end: Instant, title: string, freshId: Id)
    ensures var r := Reduce(events, AddEvent(start, end, title), freshId);
      && |r| == |events| + 1
      && r[..|events|] == events
      && r[|events|].id == freshId
      && r[|events|].title == title
      && r[|events|].start == start
      && r[|events|].end == end
  {
  }

  /** A fresh id keeps the ids unique across ADD_EVENT; every other command
      only removes events, so it keeps them unique too. */
  lemma {:induction false} ReducePreservesUniqueIds(events: seq<Event>, action: Action, freshId: Id)
    requires UniqueIds(events)
    requires action.AddEvent? ==> freshId !in Ids(events)
    ensures UniqueIds(Reduce(events, action, freshId))
  {
    match action
    case AddEvent(start, end, title) =>
      var r := Reduce(events, action, freshId);
      forall i, j | 0 <= i < j < |r| ensures r[i].id != r[j].id {
        if j == |events| {
          assert r[i].id == events[i].id;
          assert events[i].id in Ids(events);
        }
      }
    case DeleteEvent(eventId) =>
      RemoveKeepsIdsUnique(events, eventId);
    case Other(_) =>
  }

  /** Removing from a list whose ids are unique leaves them unique. */
  lemma {:induction false} RemoveKeepsIdsUnique(events: seq<Event>, id: Id)
    requires UniqueIds(events)
    ensures UniqueIds(Remove(events, id))
  {
    if events != [] {
      RemoveKeepsIdsUnique(events[1..], id);
      RemoveMembers(events[1..], id);
      var tail := Remove(events[1..], id);
      if events[0].id != id {
        var r := [events[0]] + tail;
        forall i, j | 0 <= i < j < |r| ensures r[i].id != r[j].id {
          if i == 0 {
            assert r[j] in tail;
            var k :| 0 <= k < |events[1..]| && events[1..][k] == r[j];
            assert events[k + 1] == r[j];
          } else {
            assert r[i] == tail[i - 1] && r[j] == tail[j - 1];
          }
        }
      }
    }
  }

  /** DELETE_EVENT keeps every other event exactly as often as it occurred,
      drops every event with the id, and adds nothing. */
  lemma {:induction false} DeleteKeepsExactlyTheOthers(events: seq<Event>, id: Id)
    ensures forall e :: multiset(Reduce(events, DeleteEvent(id), 0))[e]
                        == if e.id == id then 0 else multiset(events)[e]
  {
    if events != [] {
      DeleteKeepsExactlyTheOthers(events[1..], id);
      assert events == [events[0]] + events[1..];
    }
  }

  /** One step of the filter on a list built by prepending `x`. */
  lemma RemoveCons(x: Event, s: seq<Event>, id: Id)
    ensures Remove([x] + s, id) == if x.id == id then Remove(s, id) else [x] + Remove(s, id)
  {
    assert ([x] + s)[0] == x;
    assert ([x] + s)[1..] == s;
  }

  lemma Associative<T>(x: seq<T>, y: seq<T>, z: seq<T>)
    ensures x + (y + z) == (x + y) + z
  {
  }

  /** The induction step of `DeletePreservesOrder`. */
  lemma RemoveConsConcat(x: Event, t: seq<Event>, b: seq<Event>, id: Id)
    requires Remove(t + b, id) == Remove(t, id) + Remove(b, id)
    ensures Remove([x] + t + b, id) == Remove([x] + t, id) + Remove(b, id)
  {
    Associative([x], t, b);
    RemoveCons(x, t + b, id);
    RemoveCons(x, t, id);
    Associative([x], Remove(t, id), Remove(b, id));
  }

  /** Filtering distributes over concatenation: the survivors keep their
      relative order. */
  lemma {:induction false} DeletePreservesOrder(a: seq<Event>, b: seq<Event>, id: Id)
    ensures Remove(a + b, id) == Remove(a, id) + Remove(b, id)
  {
    if a == [] {
      assert a + b == b;
    } else {
      DeletePreservesOrder(a[1..], b, id);
      RemoveConsConcat(a[0], a[1..], b, id);
      assert a == [a[0]] + a[1..];
    }
  }

  /** Deleting an id no event carries leaves the list unchanged. */
  lemma {:induction false} DeleteAbsentIsIdentity(events: seq<Event>, id: Id)
    requires id !in Ids(events)
    ensures Reduce(events, DeleteEvent(id), 0) == events
  {
    if events != [] {
      assert events[0].id in Ids(events);
      assert Ids(events[1..]) <= Ids(events) by {
        forall x | x in Ids(events[1..]) ensures x in Ids(events) {
          var k :| 0 <= k < |events[1..]| && events[1..][k].id == x;
          assert events[k + 1].id == x;
        }
      }
      DeleteAbsentIsIdentity(events[1..], id);
      assert events == [events[0]] + events[1..];
    }
  }

  /** Deleting twice equals deleting once. */
  lemma DeleteIdempotent(events: seq<Event>, id: Id)
    ensures var once := Reduce(events, DeleteEvent(id), 0);
      Reduce(once, DeleteEvent(id), 0) == once
  {
    DeleteAbsentIsIdentity(Remove(events, id), id);
  }

  /** Adding an event with a fresh id and then deleting that id gives back
      the list as it was. */
  lemma AddThenDeleteRestores(events: seq<Event>, start: Instant, end: Instant, title: string, freshId: Id)
    requires freshId !in Ids(events)
    ensures Reduce(Reduce(events, AddEvent(start, end, title), freshId), DeleteEvent(freshId), 0) == events
  {
    var e := Event(freshId, title, start, end);
    DeletePreservesOrder(events, [e], freshId);
    DeleteAbsentIsIdentity(events, freshId);
    assert Remove([e], freshId) == [];
  }

  /** An action whose type is neither constant returns the state unchanged. */
  lemma UnrecognisedTypeIsIdentity(events: seq<Event>, action: Action, freshId: Id)
    requires TypeOf(action) != AddEventType && TypeOf(action) != DeleteEventType
    ensures Reduce(events, action, freshId) == events
  {
  }
}
