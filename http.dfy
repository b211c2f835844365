/** The JSON responses the route handlers build with `NextResponse.json`. */
module Http {

  /** A response body: the JSON of a value, or `{ error: message }`. */
  datatype Body<T> = Json(value: T) | Error(message: string)

  /** A status code with its body; `NextResponse.json` defaults to 200. */
  datatype Reply<T> = Reply(status: nat, body: Body<T>)
}
