/** Values the client screens and the HTTP layer exchange. */
module Api {

  datatype Option<+T> = None | Some(value: T)

  /** A task as the list endpoint returns it to the browser. `updatedAt` is the
      timestamp text the backend stores; it is searched as text and sorted by
      the instant it denotes. */
  datatype Task = Task(id: int, title: string, description: string, updatedAt: string)

  /** How one axios call ends: a 2xx response with its data, an error response
      with its status and the `error` field of its JSON body (if it has one),
      or no response at all (offline, refused, timed out). */
  datatype Response<+T> =
    | Ok(data: T)
    | HttpError(status: int, error: Option<string>)
    | NetworkError

  /** `error.response?.data?.error || fallback`: the backend's own message when
      the failure carries a non-empty one, otherwise the screen's fallback. */
  function ErrorText<T>(outcome: Response<T>, fallback: string): (r: string)
    requires !outcome.Ok?
    ensures outcome.HttpError? && outcome.error.Some? && outcome.error.value != "" ==> r == outcome.error.value
    ensures !(outcome.HttpError? && outcome.error.Some? && outcome.error.value != "") ==> r == fallback
    ensures r == "" ==> fallback == ""
  {
    match outcome
    case HttpError(_, Some(e)) => if e != "" then e else fallback
    case _ => fallback
  }
}
