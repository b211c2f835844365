/**
  What the handlers see of the document store (MongoDB through Mongoose):
  object ids, ids as they arrive in requests, and why `Model.create` fails.
 */
module Documents {
  import opened Wrappers

  /** An ObjectId. The model hands out fresh ones from a counter. */
  type Id = nat

  /**
    An id as a request carries it: missing (`undefined`, `null`, or an empty
    header), a value Mongoose cannot cast to an ObjectId, or a castable id.
   */
  datatype IdArg = Absent | Malformed | Given(id: Id)

  /**
    Why `Model.create` rejects a document: schema validation failed (a
    required path is missing, a value is outside its enum, a cast failed), or
    a unique index already holds the key (MongoDB error E11000).
   */
  datatype DbError = ValidationFailed | DuplicateKey

  /** Mongoose's `required` check on a String path: present and not empty. */
  predicate PresentString(s: Option<string>)
  {
    s.Some? && s.value != ""
  }
}
