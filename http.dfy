/** What the endpoints see of an HTTP exchange: the request after PHP has parsed
    it, the response they end with, and the calls they make to a collaborator
    (the database or the webhook service) on the way. */
module Http {
  import opened Php

  /** A request as PHP presents it: `$_SERVER['REQUEST_METHOD']`, the result of
      `getallheaders()` in order, `$_GET`, and the body after `json_decode`
      (Null when the body is not JSON). */
  datatype Request = Request(
    verb: string,
    headers: seq<(string, string)>,
    query: map<string, string>,
    body: Value)

  /** What the script writes: nothing, the message given to `exit`, the
      database rows as JSON, or the webhook service's reply passed through. */
  datatype Body = NoBody | Text(message: string) | JsonRows(rows: seq<Value>) | JsonRelay(raw: string)

  datatype Response = Response(status: int, body: Body)

  /** The calls made to a collaborator, in order, and the response sent back. */
  datatype Exchange<Call> = Exchange(calls: seq<Call>, response: Response)

  /** A statement and its named parameters, as handed to `DB_SQLite::query`. */
  datatype Query = Query(sql: string, params: Entries)

  /** What `DB_SQLite::query` returns: the rows read (an array, empty for a
      statement that reads none), or false. */
  datatype DbResult = Rows(rows: seq<Value>) | Failed

  /** `http_response_code(status); exit(message);` */
  function Exit(status: int, message: string): Response
  {
    Response(status, Text(message))
  }

  /** `setCorsHeadersAndHandleOptions`: an OPTIONS request ends the script with
      an empty 200 response; any other request goes on. */
  function Preflight(verb: string): Option<Response>
  {
    if verb == "OPTIONS" then Some(Response(200, NoBody)) else None
  }

  /** `$_GET[name] ?? default`: a parameter that is absent reads as the
      default. */
  function QueryParam(query: map<string, string>, name: string, default: string): string
  {
    if name in query then query[name] else default
  }
}
