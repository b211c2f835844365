/**
  `POST /api/registrations` (admission of the caller to an event) and
  `GET /api/registrations` (the caller's registrations, newest first). The
  caller is the `x-user-id` header; the event is `eventId` in the body.
 */
module RegistrationsRoute {
  import opened Wrappers
  import opened Documents
  import opened Http
  import opened EventModel
  import opened RegistrationModel
  import opened Store
  import opened Sorting

  const Unauthorized: Reply<Registration> := Reply(401, Error("Unauthorized"))
  const NotFound: Reply<Registration> := Reply(404, Error("Event not found"))
  const EventFull: Reply<Registration> := Reply(400, Error("Event is full"))
  const RegisterFailed: Reply<Registration> := Reply(500, Error("Failed to register for event"))

  const ListUnauthorized: Reply<seq<Registration>> := Reply(401, Error("Unauthorized"))
  const FetchFailed: Reply<seq<Registration>> := Reply(500, Error("Failed to fetch registrations"))

  /**
    The capacity test: a truthy capacity that the registrations already
    recorded for the event, whatever their status, reach.
   */
  predicate Full(e: Event, count: nat)
  {
    Limited(e) && count >= e.capacity.value
  }

  /** `Event.findById(eventId)` for an id that casts, or is missing (which finds nothing). */
  function Lookup(events: seq<Event>, eventId: IdArg): Option<Event>
    requires !eventId.Malformed?
  {
    if eventId.Given? then FindEvent(events, eventId.id) else None
  }

  /** The registration a successful POST stores and returns. */
  function Admitted(t: Tables, user: Id, event: Id, now: int): Registration
  {
    Registration(t.nextId, user, event, Confirmed, now)
  }

  /**
    The admission handler on the store as a value. `connected` is false when
    `dbConnect` throws; `parsed` is false when the request body is not JSON,
    which is found only after the caller check. The checks run in order and
    the first that fails decides: no connection (500), no caller (401), a
    body that does not parse (500), an event id that does not cast (500), no
    such event (404), full (400). Then one confirmed registration is
    created; the unique (user, event) index turning it down, or a caller id
    that does not cast, is a 500. Every reply but 201 leaves the store as it
    was.
   */
  function Register(t: Tables, connected: bool, caller: IdArg, parsed: bool, eventId: IdArg, now: int): (s: Handled<Registration>)
    ensures !connected ==> s == Handled(RegisterFailed, t)
    ensures connected && caller.Absent? ==> s == Handled(Unauthorized, t)
    ensures connected && !caller.Absent? && !parsed ==> s == Handled(RegisterFailed, t)
    ensures connected && !caller.Absent? && parsed && eventId.Malformed? ==> s == Handled(RegisterFailed, t)
    ensures connected && !caller.Absent? && parsed && !eventId.Malformed? && Lookup(t.events, eventId).None? ==>
              s == Handled(NotFound, t)
    ensures connected && !caller.Absent? && parsed && eventId.Given? && FindEvent(t.events, eventId.id).Some? &&
            Full(FindEvent(t.events, eventId.id).value, CountForEvent(t.registrations, eventId.id)) ==>
              s == Handled(EventFull, t)
    ensures (&& connected && parsed && eventId.Given? && FindEvent(t.events, eventId.id).Some?
             && !Full(FindEvent(t.events, eventId.id).value, CountForEvent(t.registrations, eventId.id))
             && (caller.Malformed? || (caller.Given? && PairTaken(t.registrations, caller.id, eventId.id)))) ==>
              s == Handled(RegisterFailed, t)
    ensures s.reply.status == 201 <==>
              && connected && caller.Given? && parsed && eventId.Given?
              && FindEvent(t.events, eventId.id).Some?
              && !Full(FindEvent(t.events, eventId.id).value, CountForEvent(t.registrations, eventId.id))
              && !PairTaken(t.registrations, caller.id, eventId.id)
    ensures s.reply.status == 201 ==>
              var r := Admitted(t, caller.id, eventId.id, now);
              && s.reply.body == Json(r)
              && s.after == t.(registrations := t.registrations + [r], nextId := t.nextId + 1)
    ensures s.reply.status != 201 ==> s.after == t
    ensures s.reply.status in {201, 400, 401, 404, 500}
    ensures Consistent(t) ==> Consistent(s.after)
  {
    if !connected then Handled(RegisterFailed, t)
    else if caller.Absent? then Handled(Unauthorized, t)
    else if !parsed then Handled(RegisterFailed, t)
    else if eventId.Malformed? then Handled(RegisterFailed, t)
    else
      match Lookup(t.events, eventId)
      case None => Handled(NotFound, t)
      case Some(e) =>
        if Full(e, CountForEvent(t.registrations, eventId.id)) then Handled(EventFull, t)
        else
          var c := AddRegistration(t, RegistrationInput(caller, eventId, Some("confirmed"), None), now);
          if c.result.Success? then Handled(Reply(201, Json(c.result.value)), c.after)
          else Handled(RegisterFailed, t)
  }

  /** The admission handler against the shared store. */
  method Post(db: Db, connected: bool, caller: IdArg, parsed: bool, eventId: IdArg, now: int) returns (reply: Reply<Registration>)
    requires db.Valid()
    modifies db
    ensures db.Valid()
    ensures Handled(reply, db.State()) == Register(old(db.State()), connected, caller, parsed, eventId, now)
  {
    if !connected {
      return RegisterFailed;
    }
    if caller.Absent? {
      return Unauthorized;
    }
    if !parsed {
      return RegisterFailed;
    }
    if eventId.Malformed? {
      return RegisterFailed;
    }
    var event := Lookup(db.events, eventId);
    if event.None? {
      return NotFound;
    }
    var count := CountForEvent(db.registrations, eventId.id);
    if Full(event.value, count) {
      return EventFull;
    }
    var created := db.CreateRegistration(RegistrationInput(caller, eventId, Some("confirmed"), None), now);
    if created.Failure? {
      return RegisterFailed;
    }
    return Reply(201, Json(created.value));
  }

  /** The sort key of `.sort({ createdAt: -1 })`: ascending in it is newest first. */
  function NewestFirst(r: Registration): int
  {
    -r.createdAt
  }

  /** The listing: exactly the caller's registrations, each once, newest first. */
  method Get(db: Db, connected: bool, caller: IdArg) returns (reply: Reply<seq<Registration>>)
    ensures !connected ==> reply == FetchFailed
    ensures connected && caller.Absent? ==> reply == ListUnauthorized
    ensures connected && caller.Malformed? ==> reply == FetchFailed
    ensures connected && caller.Given? ==>
              && reply.status == 200 && reply.body.Json?
              && multiset(reply.body.value) == multiset(ForUser(db.registrations, caller.id))
              && (forall r :: r in reply.body.value <==> r in db.registrations && r.user == caller.id)
              && (forall i, j :: 0 <= i < j < |reply.body.value| ==>
                    reply.body.value[i].createdAt >= reply.body.value[j].createdAt)
  {
    if !connected {
      return FetchFailed;
    }
    if caller.Absent? {
      return ListUnauthorized;
    }
    if caller.Malformed? {
      return FetchFailed;
    }
    var mine := ForUser(db.registrations, caller.id);
    var listed := SortBy(mine, NewestFirst);
    assert forall r :: r in listed <==> r in mine by {
      forall r ensures r in listed <==> r in mine {
        assert r in listed <==> r in multiset(listed);
      }
    }
    return Reply(200, Json(listed));
  }

  // ----- properties of admission -----

  /**
    A successful admission to an event with a truthy capacity leaves that
    event's registration count within the capacity.
   */
  lemma SuccessWithinCapacity(t: Tables, connected: bool, caller: IdArg, parsed: bool, eventId: IdArg, now: int)
    requires Register(t, connected, caller, parsed, eventId, now).reply.status == 201
    ensures var e := FindEvent(t.events, eventId.id).value;
            Limited(e) ==> CountForEvent(Register(t, connected, caller, parsed, eventId, now).after.registrations, e.id) <= e.capacity.value
  {
    var r := Admitted(t, caller.id, eventId.id, now);
    CountAppend(t.registrations, r, eventId.id);
  }

  /**
    A capacity that is absent or zero never turns anyone away: with the event
    found and the pair free, admission succeeds however many are registered.
   */
  lemma NoCapacityNoLimit(t: Tables, user: Id, event: Id, now: int)
    requires FindEvent(t.events, event).Some?
    requires FindEvent(t.events, event).value.capacity in {None, Some(0)}
    requires !PairTaken(t.registrations, user, event)
    ensures Register(t, true, Given(user), true, Given(event), now).reply.status == 201
  {
  }

  /**
    The unique index is the only duplicate check: a caller admitted once who
    tries the same event again is refused and the store stays as it was. The
    refusal is "Event is full" when that first admission filled the event,
    and the catch-all 500 otherwise.
   */
  lemma SecondAttemptFails(t: Tables, user: Id, event: Id, now: int, now': int)
    requires Register(t, true, Given(user), true, Given(event), now).reply.status == 201
    ensures var t' := Register(t, true, Given(user), true, Given(event), now).after;
            var s := Register(t', true, Given(user), true, Given(event), now');
            && s.after == t'
            && (Full(FindEvent(t.events, event).value, CountForEvent(t'.registrations, event)) ==> s.reply == EventFull)
            && (!Full(FindEvent(t.events, event).value, CountForEvent(t'.registrations, event)) ==> s.reply == RegisterFailed)
  {
    var t' := Register(t, true, Given(user), true, Given(event), now).after;
    var r := Admitted(t, user, event, now);
    assert r in t'.registrations;
    assert PairTaken(t'.registrations, user, event);
  }
}
