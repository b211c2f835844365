/**
  `GET /api/events` (every event, earliest date first) and
  `POST /api/events` (store the request body as an event). Neither handler
  looks at who is calling.
 */
module EventsRoute {
  import opened Documents
  import opened Http
  import opened EventModel
  import opened Store
  import opened Sorting

  const FetchFailed: Reply<seq<Event>> := Reply(500, Error("Failed to fetch events"))
  const CreateFailed: Reply<Event> := Reply(500, Error("Failed to create event"))

  /** The sort key of `.sort({ date: 1 })`. */
  function ByDate(e: Event): int
  {
    e.date
  }

  /** The listing: all stored events, none added or lost, in non-decreasing date order. */
  method Get(db: Db, connected: bool) returns (reply: Reply<seq<Event>>)
    ensures !connected ==> reply == FetchFailed
    ensures connected ==> reply.status == 200 && reply.body.Json?
    ensures reply.body.Json? ==> multiset(reply.body.value) == multiset(db.events)
    ensures reply.body.Json? ==>
              forall i, j :: 0 <= i < j < |reply.body.value| ==> reply.body.value[i].date <= reply.body.value[j].date
  {
    if !connected {
      return FetchFailed;
    }
    var events := SortBy(db.events, ByDate);
    return Reply(200, Json(events));
  }

  /**
    The creation, on the store as a value: a body that passes the schema is
    stored as given, organizer included, under a fresh id, and returned with
    201; earlier events and the other collections are untouched. Anything
    else is a 500 that leaves the store as it was.
   */
  function Create(t: Tables, connected: bool, data: EventInput, now: int): (s: Handled<Event>)
    ensures s.reply.status == 201 <==> connected && PresentString(data.title) && data.date.Some? && data.organizer.Given?
    ensures s.reply.status != 201 ==> s == Handled(CreateFailed, t)
    ensures s.reply.status == 201 ==>
              && s.reply.body.Json?
              && s.after == t.(events := t.events + [s.reply.body.value], nextId := t.nextId + 1)
              && s.reply.body.value.id == t.nextId
    ensures s.reply.status == 201 ==>
              var e := s.reply.body.value;
              && e.organizer == data.organizer.id
              && e.title == data.title.value
              && e.date == data.date.value
              && e.capacity == data.capacity
              && e.descriptions == data.descriptions
              && e.location == data.location
              && e.category == data.category
              && e.createdAt == (if data.createdAt.Some? then data.createdAt.value else now)
    ensures Consistent(t) ==> Consistent(s.after)
  {
    if !connected then Handled(CreateFailed, t)
    else
      var c := AddEvent(t, data, now);
      if c.result.Success? then
        Handled(Reply(201, Json(c.result.value)), c.after)
      else Handled(CreateFailed, t)
  }

  /** The handler against the shared store. */
  method Post(db: Db, connected: bool, data: EventInput, now: int) returns (reply: Reply<Event>)
    requires db.Valid()
    modifies db
    ensures db.Valid()
    ensures Handled(reply, db.State()) == Create(old(db.State()), connected, data, now)
  {
    if !connected {
      return CreateFailed;
    }
    var created := db.CreateEvent(data, now);
    if created.Failure? {
      return CreateFailed;
    }
    return Reply(201, Json(created.value));
  }
}
