/** The Registration schema: a user's place at an event, with a status. */
module RegistrationModel {
  import opened Wrappers
  import opened Documents

  /** The statuses the schema's enum admits. */
  datatype Status = Pending | Confirmed | Cancelled

  /** The string a status is stored and sent as. */
  function StatusName(s: Status): string
  {
    match s
    case Pending => "pending"
    case Confirmed => "confirmed"
    case Cancelled => "cancelled"
  }

  /** Mongoose's enum check on `status`: exactly the listed names are accepted. */
  function ParseStatus(name: string): (r: Option<Status>)
    ensures r.Some? ==> StatusName(r.value) == name
    ensures r.None? ==> forall s :: StatusName(s) != name
  {
    if name == "pending" then Some(Pending)
    else if name == "confirmed" then Some(Confirmed)
    else if name == "cancelled" then Some(Cancelled)
    else None
  }

  /** The status a registration gets when none is given. */
  const DefaultStatus: Status := Pending

  /** A stored registration. `user` and `event` are required, so always present. */
  datatype Registration = Registration(id: Id, user: Id, event: Id, status: Status, createdAt: int)

  /** The fields handed to `Registration.create`. */
  datatype RegistrationInput = RegistrationInput(user: IdArg, event: IdArg, status: Option<string>, createdAt: Option<int>)

  /**
    `Registration.create(input)` before the unique (user, event) index is
    consulted: both references are required and must cast, the status must be
    in the enum and defaults to pending, `createdAt` defaults to the creation
    time.
   */
  function NewRegistration(input: RegistrationInput, id: Id, now: int): (r: Result<Registration, DbError>)
    ensures r.Success? <==>
              input.user.Given? && input.event.Given? && (input.status.None? || ParseStatus(input.status.value).Some?)
    ensures r.Failure? ==> r.error == ValidationFailed
    ensures r.Success? ==>
              && r.value.id == id
              && r.value.user == input.user.id
              && r.value.event == input.event.id
              && (input.status.None? ==> r.value.status == Pending)
              && (input.status.Some? ==> StatusName(r.value.status) == input.status.value)
              && (input.createdAt.None? ==> r.value.createdAt == now)
              && (input.createdAt.Some? ==> r.value.createdAt == input.createdAt.value)
  {
    if !(input.user.Given? && input.event.Given?) then
      Failure(ValidationFailed)
    else if input.status.Some? && ParseStatus(input.status.value).None? then
      Failure(ValidationFailed)
    else
      var status := if input.status.None? then DefaultStatus else ParseStatus(input.status.value).value;
      var created := if input.createdAt.Some? then input.createdAt.value else now;
      Success(Registration(id, input.user.id, input.event.id, status, created))
  }
}
