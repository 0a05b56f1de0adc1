/**
 * The parts of net/http the handlers use: status codes and their texts,
 * the responses they write, the request they read, and the decision every
 * handler makes after a store write.
 */
module Http {
  import opened Wrappers
  import opened AccountModel
  import opened UserModel
  import opened Db

  const StatusOK: int := 200
  const StatusCreated: int := 201
  const StatusNoContent: int := 204
  const StatusBadRequest: int := 400
  const StatusNotFound: int := 404
  const StatusMethodNotAllowed: int := 405
  const StatusConflict: int := 409
  const StatusUnprocessableEntity: int := 422
  const StatusInternalServerError: int := 500

  /** http.StatusText for the codes the handlers write. */
  function StatusText(code: int): string
  {
    if code == StatusOK then "OK"
    else if code == StatusCreated then "Created"
    else if code == StatusNoContent then "No Content"
    else if code == StatusBadRequest then "Bad Request"
    else if code == StatusNotFound then "Not Found"
    else if code == StatusMethodNotAllowed then "Method Not Allowed"
    else if code == StatusConflict then "Conflict"
    else if code == StatusUnprocessableEntity then "Unprocessable Entity"
    else if code == StatusInternalServerError then "Internal Server Error"
    else ""
  }

  /** `text/plain; charset=utf-8` or `application/json`. */
  datatype ContentType = TextPlain | ApplicationJson

  /**
   * What a response carries: nothing, plain text, or the JSON encoding of
   * a record (a nil record encodes as `null`) or of a list of records.
   */
  datatype Payload =
    | NoBody
    | Text(text: string)
    | AccountJson(account: Option<Account>)
    | AccountsJson(accounts: seq<Account>)
    | UserJson(user: Option<User>)
    | UsersJson(users: seq<User>)

  datatype Response = Response(status: int, contentType: ContentType, payload: Payload)

  /** http.Error(w, http.StatusText(code), code): the status text and a newline, as plain text. */
  function ErrorResponse(code: int): Response
  {
    Response(code, TextPlain, Text(StatusText(code) + "\n"))
  }

  /** http.NotFound, which a router answers with when no route matches the path. */
  function NotFoundPage(): Response
  {
    Response(StatusNotFound, TextPlain, Text("404 page not found\n"))
  }

  /** A JSON success response. */
  function JsonResponse(p: Payload): Response
  {
    Response(StatusOK, ApplicationJson, p)
  }

  /** What ioutil.ReadAll and json.Unmarshal make of a request body. */
  datatype Body<T> = ReadFailed | Malformed | Decoded(value: T)

  /** The request methods the router knows, and any other verb. */
  datatype Method = Get | Head | Post | Put | Patch | Delete | Connect | Options | Trace | Unknown

  datatype Resource = Accounts | Users

  /**
   * The path of a request as the router sees it: a collection
   * (`/accounts`), an item (`/accounts/{accountID}` with the raw segment),
   * an item followed by further segments (`/accounts/{accountID}/x`, which
   * the item's subrouter still receives), or a path no route is
   * registered for.
   */
  datatype Path =
    | Collection(resource: Resource)
    | Item(resource: Resource, param: string)
    | Nested(resource: Resource, param: string)
    | Unrouted

  /** A request; its body is given as what it decodes to as an account and as a user. */
  datatype Request = Request(verb: Method, path: Path, asAccount: Body<Account>, asUser: Body<User>)

  /** The error a Result-returning store call reported, if any. */
  function ErrorOf<T>(r: Result<T, StoreError>): Option<StoreError>
  {
    if r.Failure? then Some(r.error) else None
  }

  /**
   * The check every handler makes after a store write: an sqlite3.Error
   * with the UNIQUE extended code is a 409, any other error that is not an
   * sqlite3.Error is a 500, and no error, or an sqlite3.Error with another
   * code, goes on to the success response.
   */
  function WriteFailure(err: Option<StoreError>): Option<Response>
  {
    match err
    case None => None
    case Some(Sqlite(code)) => if code == ConstraintUnique then Some(ErrorResponse(StatusConflict)) else None
    case Some(_) => Some(ErrorResponse(StatusInternalServerError))
  }

  /**
   * The four kinds of outcome of a write are kept apart: a UNIQUE
   * violation gives 409, an error from outside sqlite (NotFound included)
   * gives 500, and both no error and any other sqlite error let the
   * handler answer as if the write had succeeded.
   */
  lemma WriteFailureCases(err: Option<StoreError>)
    ensures WriteFailure(err) == Some(ErrorResponse(StatusConflict)) <==> err == Some(Sqlite(ConstraintUnique))
    ensures WriteFailure(err) == Some(ErrorResponse(StatusInternalServerError)) <==> err.Some? && !err.value.Sqlite?
    ensures WriteFailure(err).None? <==> err.None? || (err.value.Sqlite? && err.value.extendedCode != ConstraintUnique)
  {
  }
}
