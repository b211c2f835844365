/**
  The three collections as in-memory tables, in insertion order, and the
  store operations the handlers use: `findOne`/`findById`, `countDocuments`,
  `find`, and `create` with its unique indexes (email on users, the
  (user, event) pair on registrations).
 */
module Store {
  import opened Wrappers
  import opened Documents
  import opened Http
  import opened UserModel
  import opened EventModel
  import opened RegistrationModel

  /** The whole store; `nextId` is the next fresh ObjectId. */
  datatype Tables = Tables(users: seq<User>, events: seq<Event>, registrations: seq<Registration>, nextId: nat)

  /** The store before anything is created. */
  const Empty: Tables := Tables([], [], [], 0)

  /** The outcome of one `create`: the document or the error, and the store afterwards. */
  datatype Created<T> = Created(result: Result<T, DbError>, after: Tables)

  /** What a handler call produces: the response, and the store afterwards. */
  datatype Handled<T> = Handled(reply: Reply<T>, after: Tables)

  // ----- queries -----

  predicate EmailTaken(users: seq<User>, email: string)
  {
    exists u :: u in users && u.email == email
  }

  /** `User.findOne({ email })`: the first user with that email, if any. */
  function FindUserByEmail(users: seq<User>, email: string): (r: Option<User>)
    ensures r.Some? ==> r.value in users && r.value.email == email
    ensures r.None? <==> !EmailTaken(users, email)
    ensures r.Some? && users != [] && users[0].email == email ==> r.value == users[0]
  {
    if users == [] then None
    else if users[0].email == email then Some(users[0])
    else FindUserByEmail(users[1..], email)
  }

  /** `Event.findById(id)`: the first event with that id, if any. */
  function FindEvent(events: seq<Event>, id: Id): (r: Option<Event>)
    ensures r.Some? ==> r.value in events && r.value.id == id
    ensures r.None? <==> forall e :: e in events ==> e.id != id
  {
    if events == [] then None
    else if events[0].id == id then Some(events[0])
    else FindEvent(events[1..], id)
  }

  /** `Registration.find({ event: id })`, in stored order. */
  function ForEvent(regs: seq<Registration>, id: Id): (r: seq<Registration>)
    ensures forall x :: x in r <==> x in regs && x.event == id
    ensures |r| <= |regs|
  {
    if regs == [] then []
    else if regs[0].event == id then [regs[0]] + ForEvent(regs[1..], id)
    else ForEvent(regs[1..], id)
  }

  /** `Registration.find({ user: id })`, in stored order. */
  function ForUser(regs: seq<Registration>, id: Id): (r: seq<Registration>)
    ensures forall x :: x in r <==> x in regs && x.user == id
    ensures |r| <= |regs|
  {
    if regs == [] then []
    else if regs[0].user == id then [regs[0]] + ForUser(regs[1..], id)
    else ForUser(regs[1..], id)
  }

  /** `Registration.countDocuments({ event: id })`: every status counts. */
  function CountForEvent(regs: seq<Registration>, id: Id): nat
  {
    |ForEvent(regs, id)|
  }

  /** Appending a registration adds one to its event's count and leaves every other count alone. */
  lemma {:induction false} CountAppend(regs: seq<Registration>, x: Registration, id: Id)
    ensures CountForEvent(regs + [x], id) == CountForEvent(regs, id) + (if x.event == id then 1 else 0)
  {
    if regs == [] {
      assert ForEvent([x], id) == if x.event == id then [x] else [];
    } else {
      assert (regs + [x])[1..] == regs[1..] + [x];
      CountAppend(regs[1..], x, id);
    }
  }

  predicate PairTaken(regs: seq<Registration>, user: Id, event: Id)
  {
    exists r :: r in regs && r.user == user && r.event == event
  }

  // ----- invariants the schemas and the id allocation keep -----

  /** Ids are below `nextId` and unique; name and email are present; emails are unique. */
  ghost predicate UsersConsistent(users: seq<User>, nextId: nat)
  {
    && (forall i :: 0 <= i < |users| ==> users[i].id < nextId && users[i].name != "" && users[i].email != "")
    && (forall i, j :: 0 <= i < j < |users| ==> users[i].id != users[j].id && users[i].email != users[j].email)
  }

  /** Ids are below `nextId` and unique; every event has a title. */
  ghost predicate EventsConsistent(events: seq<Event>, nextId: nat)
  {
    && (forall i :: 0 <= i < |events| ==> events[i].id < nextId && events[i].title != "")
    && (forall i, j :: 0 <= i < j < |events| ==> events[i].id != events[j].id)
  }

  /** Ids are below `nextId` and unique; no two registrations share a (user, event) pair. */
  ghost predicate RegistrationsConsistent(regs: seq<Registration>, nextId: nat)
  {
    && (forall i :: 0 <= i < |regs| ==> regs[i].id < nextId)
    && (forall i, j :: 0 <= i < j < |regs| ==>
          regs[i].id != regs[j].id && (regs[i].user != regs[j].user || regs[i].event != regs[j].event))
  }

  ghost predicate Consistent(t: Tables)
  {
    && UsersConsistent(t.users, t.nextId)
    && EventsConsistent(t.events, t.nextId)
    && RegistrationsConsistent(t.registrations, t.nextId)
  }

  // ----- Model.create -----

  /**
    `User.create(input)`: a valid document whose email is not yet taken is
    appended under a fresh id; otherwise nothing changes.
   */
  function AddUser(t: Tables, input: UserInput, hash: Hash): (c: Created<User>)
    ensures c.result.Success? <==> NewUser(input, t.nextId, hash).Success? && !EmailTaken(t.users, input.email.value)
    ensures NewUser(input, t.nextId, hash).Success? && EmailTaken(t.users, input.email.value) ==>
              c.result == Failure(DuplicateKey)
    ensures c.result.Success? ==>
              && c.result.value == NewUser(input, t.nextId, hash).value
              && c.after == t.(users := t.users + [c.result.value], nextId := t.nextId + 1)
    ensures c.result.Failure? ==> c.after == t
    ensures Consistent(t) ==> Consistent(c.after)
  {
    var doc := NewUser(input, t.nextId, hash);
    if doc.Failure? then Created(Failure(doc.error), t)
    else if EmailTaken(t.users, doc.value.email) then Created(Failure(DuplicateKey), t)
    else Created(Success(doc.value), t.(users := t.users + [doc.value], nextId := t.nextId + 1))
  }

  /** `Event.create(input)`: a valid document is appended under a fresh id; otherwise nothing changes. */
  function AddEvent(t: Tables, input: EventInput, now: int): (c: Created<Event>)
    ensures c.result.Success? <==> NewEvent(input, t.nextId, now).Success?
    ensures c.result.Success? ==>
              && c.result.value == NewEvent(input, t.nextId, now).value
              && c.after == t.(events := t.events + [c.result.value], nextId := t.nextId + 1)
    ensures c.result.Failure? ==> c.after == t
    ensures Consistent(t) ==> Consistent(c.after)
  {
    var doc := NewEvent(input, t.nextId, now);
    if doc.Failure? then Created(Failure(doc.error), t)
    else Created(Success(doc.value), t.(events := t.events + [doc.value], nextId := t.nextId + 1))
  }

  /**
    `Registration.create(input)`: a valid document whose (user, event) pair is
    not yet taken is appended under a fresh id; otherwise nothing changes.
   */
  function AddRegistration(t: Tables, input: RegistrationInput, now: int): (c: Created<Registration>)
    ensures c.result.Success? <==>
              NewRegistration(input, t.nextId, now).Success? &&
              !PairTaken(t.registrations, input.user.id, input.event.id)
    ensures NewRegistration(input, t.nextId, now).Success? && PairTaken(t.registrations, input.user.id, input.event.id) ==>
              c.result == Failure(DuplicateKey)
    ensures c.result.Success? ==>
              && c.result.value == NewRegistration(input, t.nextId, now).value
              && c.after == t.(registrations := t.registrations + [c.result.value], nextId := t.nextId + 1)
    ensures c.result.Failure? ==> c.after == t
    ensures Consistent(t) ==> Consistent(c.after)
  {
    var doc := NewRegistration(input, t.nextId, now);
    if doc.Failure? then Created(Failure(doc.error), t)
    else if PairTaken(t.registrations, doc.value.user, doc.value.event) then Created(Failure(DuplicateKey), t)
    else Created(Success(doc.value), t.(registrations := t.registrations + [doc.value], nextId := t.nextId + 1))
  }

  /** The database connection the handlers share: one mutable table per collection. */
  class Db {
    var users: seq<User>
    var events: seq<Event>
    var registrations: seq<Registration>
    var nextId: nat

    function State(): Tables
      reads this
    {
      Tables(users, events, registrations, nextId)
    }

    ghost predicate Valid()
      reads this
    {
      Consistent(State())
    }

    constructor ()
      ensures State() == Empty && Valid()
    {
      users, events, registrations, nextId := [], [], [], 0;
    }

    method CreateUser(input: UserInput, hash: Hash) returns (r: Result<User, DbError>)
      requires Valid()
      modifies this
      ensures Valid()
      ensures Created(r, State()) == AddUser(old(State()), input, hash)
    {
      r := NewUser(input, nextId, hash);
      if r.Success? {
        if EmailTaken(users, r.value.email) {
          r := Failure(DuplicateKey);
        } else {
          users := users + [r.value];
          nextId := nextId + 1;
        }
      }
    }

    method CreateEvent(input: EventInput, now: int) returns (r: Result<Event, DbError>)
      requires Valid()
      modifies this
      ensures Valid()
      ensures Created(r, State()) == AddEvent(old(State()), input, now)
    {
      r := NewEvent(input, nextId, now);
      if r.Success? {
        events := events + [r.value];
        nextId := nextId + 1;
      }
    }

    method CreateRegistration(input: RegistrationInput, now: int) returns (r: Result<Registration, DbError>)
      requires Valid()
      modifies this
      ensures Valid()
      ensures Created(r, State()) == AddRegistration(old(State()), input, now)
    {
      r := NewRegistration(input, nextId, now);
      if r.Success? {
        if PairTaken(registrations, r.value.user, r.value.event) {
          r := Failure(DuplicateKey);
        } else {
          registrations := registrations + [r.value];
          nextId := nextId + 1;
        }
      }
    }
  }
}
