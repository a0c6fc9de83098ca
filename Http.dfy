/** What the route handlers receive and answer: query parameters, validation issues, replies with a status. */
module Http {
  import opened Wrappers

  /** The URL's search parameters; `searchParams.get(name)` is `Param(query, name)`. */
  type Query = map<string, string>

  function Param(query: Query, name: string): Option<string>
  {
    if name in query then Some(query[name]) else None
  }

  /** One validation issue: the path of the offending field and what is wrong with it. */
  datatype Issue = Issue(path: seq<string>, message: string)

  /**
   * A JSON reply. A failure carries the `error` text and, where the route adds
   * them, a `message` and the validation `details`.
   */
  datatype Reply<T> =
    | Ok(status: int, body: T)
    | Fail(status: int, error: string, message: Option<string>, details: Option<seq<Issue>>)
}
