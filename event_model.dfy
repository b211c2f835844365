/** The Event schema: which fields an event must have and which it may have. */
module EventModel {
  import opened Wrappers
  import opened Documents

  /**
    A stored event. Dates are integer timestamps. The schema spells the
    optional text field `descriptions`.
   */
  datatype Event = Event(
    id: Id,
    title: string,
    descriptions: Option<string>,
    date: int,
    organizer: Id,
    location: Option<string>,
    capacity: Option<int>,
    category: Option<string>,
    createdAt: int)

  /** The fields handed to `Event.create`; any of them may be missing. */
  datatype EventInput = EventInput(
    title: Option<string>,
    descriptions: Option<string>,
    date: Option<int>,
    organizer: IdArg,
    location: Option<string>,
    capacity: Option<int>,
    category: Option<string>,
    createdAt: Option<int>)

  /**
    JavaScript truthiness of `event.capacity`: a capacity that is absent or
    zero sets no limit.
   */
  predicate Limited(e: Event)
  {
    e.capacity.Some? && e.capacity.value != 0
  }

  /**
    `Event.create(input)`: schema validation (title, date and a castable
    organizer are required), then the document as given, with `createdAt`
    defaulting to the creation time.
   */
  function NewEvent(input: EventInput, id: Id, now: int): (r: Result<Event, DbError>)
    ensures r.Success? <==> PresentString(input.title) && input.date.Some? && input.organizer.Given?
    ensures r.Failure? ==> r.error == ValidationFailed
    ensures r.Success? ==>
              && r.value.id == id
              && r.value.title == input.title.value
              && r.value.date == input.date.value
              && r.value.organizer == input.organizer.id
              && r.value.capacity == input.capacity
              && (input.createdAt.None? ==> r.value.createdAt == now)
              && (input.createdAt.Some? ==> r.value.createdAt == input.createdAt.value)
              && r.value.descriptions == input.descriptions
              && r.value.location == input.location
              && r.value.category == input.category
  {
    if PresentString(input.title) && input.date.Some? && input.organizer.Given? then
      var created := if input.createdAt.Some? then input.createdAt.value else now;
      Success(Event(id, input.title.value, input.descriptions, input.date.value, input.organizer.id,
                    input.location, input.capacity, input.category, created))
    else
      Failure(ValidationFailed)
  }
}
