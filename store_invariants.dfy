/**
  What the handlers keep true of the store together, beyond the schemas:
  every registration refers to a stored event, and no event with a truthy
  capacity holds more registrations than it allows. Registration admission,
  event creation and admin seeding each preserve it, so any sequence of
  these calls does, starting from the empty store.
 */
module StoreInvariants {
  import opened Wrappers
  import opened Documents
  import opened EventModel
  import opened RegistrationModel
  import opened Store
  import RegistrationsRoute
  import EventsRoute
  import AdminSeeding
  import UserModel

  /** The most registrations an event with a truthy capacity may hold (none for a negative capacity). */
  function Bound(e: Event): nat
    requires Limited(e)
  {
    if e.capacity.value > 0 then e.capacity.value else 0
  }

  ghost predicate ReferencesResolve(t: Tables)
  {
    forall r :: r in t.registrations ==> FindEvent(t.events, r.event).Some?
  }

  ghost predicate WithinCapacity(t: Tables)
  {
    forall e :: e in t.events && Limited(e) ==> CountForEvent(t.registrations, e.id) <= Bound(e)
  }

  ghost predicate Sound(t: Tables)
  {
    Consistent(t) && ReferencesResolve(t) && WithinCapacity(t)
  }

  lemma EmptySound()
    ensures Sound(Empty)
  {
  }

  /** With unique event ids, looking up a stored event's id finds that event. */
  lemma {:induction false} UniqueIdFound(events: seq<Event>, nextId: nat, e: Event)
    requires EventsConsistent(events, nextId)
    requires e in events
    ensures FindEvent(events, e.id) == Some(e)
  {
    if events[0] != e {
      assert EventsConsistent(events[1..], nextId) by {
        forall i, j | 0 <= i < j < |events[1..]|
          ensures events[1..][i].id != events[1..][j].id
        {
          assert events[1..][i] == events[i + 1] && events[1..][j] == events[j + 1];
        }
      }
      assert events[0].id != e.id;
      UniqueIdFound(events[1..], nextId, e);
    }
  }

  /** Appending an event does not change what an id already stored resolves to. */
  lemma {:induction false} FindEventAppend(events: seq<Event>, x: Event, id: Id)
    requires FindEvent(events, id).Some?
    ensures FindEvent(events + [x], id) == FindEvent(events, id)
  {
    if events[0].id != id {
      assert (events + [x])[1..] == events[1..] + [x];
      FindEventAppend(events[1..], x, id);
    }
  }

  /** An event id no registration refers to has a count of zero. */
  lemma {:induction false} NoReferenceNoCount(regs: seq<Registration>, id: Id)
    requires forall r :: r in regs ==> r.event != id
    ensures CountForEvent(regs, id) == 0
  {
    if regs != [] {
      assert regs[0] in regs;
      NoReferenceNoCount(regs[1..], id);
    }
  }

  /** Admission keeps the store sound. */
  lemma RegisterKeepsSound(t: Tables, connected: bool, caller: IdArg, parsed: bool, eventId: IdArg, now: int)
    requires Sound(t)
    ensures Sound(RegistrationsRoute.Register(t, connected, caller, parsed, eventId, now).after)
  {
    var s := RegistrationsRoute.Register(t, connected, caller, parsed, eventId, now);
    if s.reply.status == 201 {
      var t' := s.after;
      var r := RegistrationsRoute.Admitted(t, caller.id, eventId.id, now);
      var target := FindEvent(t.events, eventId.id).value;
      forall e | e in t'.events && Limited(e)
        ensures CountForEvent(t'.registrations, e.id) <= Bound(e)
      {
        CountAppend(t.registrations, r, e.id);
        if e.id == eventId.id {
          UniqueIdFound(t.events, t.nextId, e);
        }
      }
    }
  }

  /** Creating an event keeps the store sound: the new id is fresh, so nothing refers to it yet. */
  lemma CreateEventKeepsSound(t: Tables, connected: bool, data: EventInput, now: int)
    requires Sound(t)
    ensures Sound(EventsRoute.Create(t, connected, data, now).after)
  {
    var s := EventsRoute.Create(t, connected, data, now);
    if s.reply.status == 201 {
      var x := s.reply.body.value;
      forall r | r in t.registrations
        ensures FindEvent(s.after.events, r.event).Some? && r.event != x.id
      {
        FindEventAppend(t.events, x, r.event);
      }
      NoReferenceNoCount(t.registrations, x.id);
      forall e | e in s.after.events && Limited(e)
        ensures CountForEvent(s.after.registrations, e.id) <= Bound(e)
      {
      }
    }
  }

  /** Seeding the administrators keeps the store sound. */
  lemma SeedKeepsSound(t: Tables, hash: UserModel.Hash, prehash: bool)
    requires Sound(t)
    ensures Sound(AdminSeeding.Seed(t, AdminSeeding.Admins, hash, prehash))
  {
  }
}
