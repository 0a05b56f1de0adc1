/**
 * NewRouter: the route table, and how a request reaches a handler. For an
 * `/{id}` route the id middleware runs before the method is looked up, so a
 * malformed id is a 400 whatever the method; a verb the router does not
 * know at all is a 405 before the path is looked at; a path with no route
 * is a 404.
 */
module Router {
  import opened Wrappers
  import opened Numerals
  import opened Db
  import opened Http
  import opened General
  import AccountRoutes
  import UserRoutes

  /** The handlers NewRouter registers. */
  datatype Endpoint =
    | AllAccounts | CreateAccount | GetAccount | UpdateAccount | DeleteAccount
    | AllUsers | CreateUser | GetUser | UpdateUser | DeleteUser

  datatype Route = Handler(endpoint: Endpoint) | NotAllowed | NoRoute

  /** The route table: method and path to handler. */
  function Lookup(m: Method, p: Path): Route
  {
    match p
    case Unrouted => NoRoute
    case Nested(_, _) => NoRoute
    case Collection(Accounts) =>
      if m == Get then Handler(AllAccounts)
      else if m == Post then Handler(CreateAccount)
      else NotAllowed
    case Item(Accounts, _) =>
      if m == Get then Handler(GetAccount)
      else if m == Put then Handler(UpdateAccount)
      else if m == Delete then Handler(DeleteAccount)
      else NotAllowed
    case Collection(Users) =>
      if m == Get then Handler(AllUsers)
      else if m == Post then Handler(CreateUser)
      else NotAllowed
    case Item(Users, _) =>
      if m == Get then Handler(GetUser)
      else if m == Put then Handler(UpdateUser)
      else if m == Delete then Handler(DeleteUser)
      else NotAllowed
  }

  /**
   * Exactly ten routes are registered: GET and POST on each collection, and
   * GET, PUT and DELETE on each item; every other method on a known path is
   * not allowed.
   */
  lemma LookupTable(m: Method, p: Path)
    ensures Lookup(m, p).Handler? <==>
      || (p.Collection? && m in {Get, Post})
      || (p.Item? && m in {Get, Put, Delete})
    ensures Lookup(m, p) == NoRoute <==> p.Unrouted? || p.Nested?
    ensures Lookup(m, p).Handler? ==> (p.Item? <==> Lookup(m, p).endpoint in {GetAccount, UpdateAccount, DeleteAccount, GetUser, UpdateUser, DeleteUser})
    ensures Lookup(m, p).Handler? ==> (p.resource == Accounts <==> Lookup(m, p).endpoint in {AllAccounts, CreateAccount, GetAccount, UpdateAccount, DeleteAccount})
  {
  }

  /**
   * What serving a request comes to: a response written by the modelled
   * handlers, or a delete handed over with the id its middleware parsed
   * (the delete handlers are not part of this model).
   */
  datatype Served = Handled(response: Response) | Delegated(endpoint: Endpoint, ctxId: Option<int>)

  /** Run the handler of `route`, with the id the middleware put in the context, if any. */
  function Dispatch(db: DbState, req: Request, route: Route, ctxId: Option<int>): Step<Served>
  {
    match route
    case NoRoute => Step(Handled(NotFoundPage()), db)
    case NotAllowed => Step(Handled(MethodNotAllowed(req)), db)
    case Handler(e) =>
      match e
      case AllAccounts => Step(Handled(AccountRoutes.AllAccountsResponse(db)), db)
      case CreateAccount =>
        var s := AccountRoutes.CreateAccountExchange(db, req.asAccount);
        Step(Handled(s.result), s.after)
      case GetAccount => Step(Handled(AccountRoutes.GetAccountResponse(db, ctxId)), db)
      case UpdateAccount =>
        var s := AccountRoutes.UpdateAccountExchange(db, ctxId, req.asAccount);
        Step(Handled(s.result), s.after)
      case AllUsers => Step(Handled(UserRoutes.AllUsersResponse(db)), db)
      case CreateUser =>
        var s := UserRoutes.CreateUserExchange(db, req.asUser);
        Step(Handled(s.result), s.after)
      case GetUser => Step(Handled(UserRoutes.GetUserResponse(db, ctxId)), db)
      case UpdateUser =>
        var s := UserRoutes.UpdateUserExchange(db, ctxId, req.asUser);
        Step(Handled(s.result), s.after)
      case DeleteAccount => Step(Delegated(e, ctxId), db)
      case DeleteUser => Step(Delegated(e, ctxId), db)
  }

  /** The id middleware of an item path: AccountCtx or UserCtx. */
  function ItemCtx(resource: Resource, param: string): Result<int, Response>
  {
    match resource
    case Accounts => AccountRoutes.AccountCtx(param)
    case Users => UserRoutes.UserCtx(param)
  }

  /**
   * A request the subrouter mounted at `/{id}` receives: its id middleware
   * runs first, then the subrouter looks the rest of the path up.
   */
  function Mounted(db: DbState, req: Request, resource: Resource, param: string): Step<Served>
  {
    match ItemCtx(resource, param)
    case Failure(refusal) => Step(Handled(refusal), db)
    case Success(id) => Dispatch(db, req, Lookup(req.verb, req.path), Some(id))
  }

  /** A request through the router. */
  function Serve(db: DbState, req: Request): Step<Served>
  {
    if req.verb == Unknown then Step(Handled(MethodNotAllowed(req)), db)
    else
      match req.path
      case Unrouted => Step(Handled(NotFoundPage()), db)
      case Collection(_) => Dispatch(db, req, Lookup(req.verb, req.path), None)
      case Item(resource, param) => Mounted(db, req, resource, param)
      case Nested(resource, param) => Mounted(db, req, resource, param)
  }

  /**
   * On an item path with a known method, a segment strconv.Atoi refuses is
   * a 400 before any handler or method check, and the store is untouched;
   * an accepted one reaches the route's handler with the parsed id.
   */
  lemma ServeItem(db: DbState, req: Request)
    requires req.verb != Unknown && req.path.Item?
    ensures Atoi(req.path.param).None? ==> Serve(db, req) == Step(Handled(ErrorResponse(StatusBadRequest)), db)
    ensures Atoi(req.path.param).Some? ==>
      Serve(db, req) == Dispatch(db, req, Lookup(req.verb, req.path), Some(Atoi(req.path.param).value))
  {
  }

  /**
   * Collection routes never run the id middleware: a GET lists the table
   * (200, or 500 when the store fails) and a POST is the create handler.
   */
  lemma ServeCollection(db: DbState, req: Request)
    requires req.path.Collection?
    ensures req.verb == Get ==>
      && Serve(db, req).after == db && Serve(db, req).result.Handled?
      && Serve(db, req).result.response.status in {StatusOK, StatusInternalServerError}
    ensures req.verb == Post && req.path.resource == Accounts ==>
      Serve(db, req) == var s := AccountRoutes.CreateAccountExchange(db, req.asAccount); Step(Handled(s.result), s.after)
    ensures req.verb == Post && req.path.resource == Users ==>
      Serve(db, req) == var s := UserRoutes.CreateUserExchange(db, req.asUser); Step(Handled(s.result), s.after)
  {
  }

  /**
   * 405 cases: a verb the router does not know, on any path, and a known
   * verb with no route on a collection or on an item whose id parses; the
   * store is never touched.
   */
  lemma ServeNotAllowed(db: DbState, req: Request)
    requires || req.verb == Unknown
             || (req.path.Collection? && req.verb !in {Get, Post})
             || (req.path.Item? && req.verb !in {Get, Put, Delete} && Atoi(req.path.param).Some?)
    ensures Serve(db, req) == Step(Handled(MethodNotAllowed(req)), db)
    ensures Serve(db, req).result.response == Response(StatusMethodNotAllowed, TextPlain, Text("Method Not Allowed\n"))
  {
  }

  /**
   * Further segments after an item id still pass through the id
   * middleware: a segment `strconv.Atoi` refuses gives 400, an accepted one
   * the 404 page of the subrouter; the store is untouched.
   */
  lemma ServeNested(db: DbState, req: Request)
    requires req.verb != Unknown && req.path.Nested?
    ensures Atoi(req.path.param).None? ==> Serve(db, req) == Step(Handled(ErrorResponse(StatusBadRequest)), db)
    ensures Atoi(req.path.param).Some? ==> Serve(db, req) == Step(Handled(NotFoundPage()), db)
  {
  }

  /** A known verb on a path with no route is answered with the 404 page. */
  lemma ServeUnrouted(db: DbState, req: Request)
    requires req.verb != Unknown && req.path == Unrouted
    ensures Serve(db, req) == Step(Handled(NotFoundPage()), db)
  {
  }

  /**
   * The method checks of the repository's router tests: PUT on the
   * accounts collection is a 405, and PUT on an account id is routed to
   * UpdateAccount with the parsed id.
   */
  lemma ServePutExamples(db: DbState, b: Body<AccountModel.Account>, c: Body<UserModel.User>)
    ensures Serve(db, Request(Put, Collection(Accounts), b, c)).result.response.status == StatusMethodNotAllowed
    ensures Serve(db, Request(Put, Item(Accounts, "1"), b, c)) ==
      var s := AccountRoutes.UpdateAccountExchange(db, Some(1), b); Step(Handled(s.result), s.after)
  {
    AtoiExamples();
  }

  /** The id middleware runs first: a POST to `/accounts/abc` is a 400, one to `/accounts/1` a 405. */
  lemma ServePostItemExamples(db: DbState, b: Body<AccountModel.Account>, c: Body<UserModel.User>)
    ensures Serve(db, Request(Post, Item(Accounts, "abc"), b, c)).result.response.status == StatusBadRequest
    ensures Serve(db, Request(Post, Item(Accounts, "1"), b, c)).result.response.status == StatusMethodNotAllowed
  {
    AtoiExamples();
    AtoiRejectsStray("abc", 0);
  }

  /** `GET /accounts/abc/x` is a 400 from the id middleware, `GET /accounts/1/x` the 404 page. */
  lemma ServeNestedExamples(db: DbState, b: Body<AccountModel.Account>, c: Body<UserModel.User>)
    ensures Serve(db, Request(Get, Nested(Accounts, "abc"), b, c)).result.response.status == StatusBadRequest
    ensures Serve(db, Request(Get, Nested(Accounts, "1"), b, c)).result.response == NotFoundPage()
  {
    AtoiExamples();
    AtoiRejectsStray("abc", 0);
  }

  /** DELETE on a user id is registered and reaches its handler with the parsed id. */
  lemma ServeDeleteExample(db: DbState, b: Body<AccountModel.Account>, c: Body<UserModel.User>)
    ensures Serve(db, Request(Delete, Item(Users, "7"), b, c)) == Step(Delegated(DeleteUser, Some(7)), db)
  {
    AtoiFormatInt(7);
    assert FormatInt(7) == "7";
  }

  /** A request through the router, on a Store. */
  method ServeRequest(store: Store, req: Request) returns (served: Served)
    requires store.Valid()
    modifies store
    ensures store.Valid()
    ensures Step(served, store.State()) == Serve(old(store.State()), req)
  {
    if req.verb == Unknown {
      return Handled(MethodNotAllowed(req));
    }
    var ctxId: Option<int> := None;
    match req.path {
      case Unrouted =>
        return Handled(NotFoundPage());
      case Collection(_) =>
      case Item(resource, param) =>
        var parsed := ItemCtx(resource, param);
        if parsed.Failure? {
          return Handled(parsed.error);
        }
        ctxId := Some(parsed.value);
      case Nested(resource, param) =>
        var parsed := ItemCtx(resource, param);
        if parsed.Failure? {
          return Handled(parsed.error);
        }
        ctxId := Some(parsed.value);
    }
    var route := Lookup(req.verb, req.path);
    match route {
      case NoRoute =>
        return Handled(NotFoundPage());
      case NotAllowed =>
        return Handled(MethodNotAllowed(req));
      case Handler(e) =>
        var response: Response;
        match e {
          case AllAccounts =>
            response := AccountRoutes.AllAccounts(store);
          case CreateAccount =>
            response := AccountRoutes.CreateAccount(store, req.asAccount);
          case GetAccount =>
            response := AccountRoutes.GetAccount(store, ctxId);
          case UpdateAccount =>
            response := AccountRoutes.UpdateAccount(store, ctxId, req.asAccount);
          case AllUsers =>
            response := UserRoutes.AllUsers(store);
          case CreateUser =>
            response := UserRoutes.CreateUser(store, req.asUser);
          case GetUser =>
            response := UserRoutes.GetUser(store, ctxId);
          case UpdateUser =>
            response := UserRoutes.UpdateUser(store, ctxId, req.asUser);
          case DeleteAccount =>
            return Delegated(e, ctxId);
          case DeleteUser =>
            return Delegated(e, ctxId);
        }
        return Handled(response);
    }
  }
}
