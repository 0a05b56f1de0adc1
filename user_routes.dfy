/**
 * The user handlers: UserCtx, AllUsers, GetUser, CreateUser
 * and UpdateUser. Each is a function giving the response and the store
 * state it leaves, and a method that performs the same steps on a Store.
 */
module UserRoutes {
  import opened Wrappers
  import opened Numerals
  import opened Email
  import opened UserModel
  import opened Db
  import opened Http

  /** UserCtx: the `{userID}` segment as an int, or a 400 before the handler runs. */
  function UserCtx(param: string): Result<int, Response>
  {
    match Atoi(param)
    case None => Failure(ErrorResponse(StatusBadRequest))
    case Some(id) => Success(id)
  }

  /**
   * UserCtx lets through exactly the segments strconv.Atoi accepts, so
   * every int64 in its canonical form, and nothing with a stray character.
   */
  lemma UserCtxAccepts(param: string, n: int)
    requires MinInt <= n <= MaxInt
    ensures UserCtx(param).Failure? <==> Atoi(param).None?
    ensures UserCtx(param).Failure? ==> UserCtx(param).error == ErrorResponse(StatusBadRequest)
    ensures UserCtx(FormatInt(n)) == Success(n)
  {
    AtoiFormatInt(n);
  }

  /** The segments of the repository's tests: `test` is refused, `1` and a signed `-1` pass. */
  lemma UserCtxExamples()
    ensures UserCtx("test") == Failure(ErrorResponse(StatusBadRequest))
    ensures UserCtx("1") == Success(1)
    ensures UserCtx("-1") == Success(-1)
    ensures UserCtx("") == Failure(ErrorResponse(StatusBadRequest))
  {
    AtoiExamples();
  }

  function AllUsersResponse(db: DbState): Response
  {
    match AllUserRows(db)
    case Failure(_) => ErrorResponse(StatusInternalServerError)
    case Success(rows) => JsonResponse(UsersJson(rows))
  }

  /**
   * The listing is a 500 exactly when the store fails, and otherwise the
   * JSON list of every stored user in id order.
   */
  lemma AllUsersResponds(db: DbState)
    requires Consistent(db)
    ensures AllUsersResponse(db).status == StatusInternalServerError <==> db.fault.Some?
    ensures db.fault.None? ==>
      && AllUsersResponse(db).status == StatusOK
      && AllUsersResponse(db).contentType == ApplicationJson
      && AllUsersResponse(db).payload.UsersJson?
      && var rows := AllUsersResponse(db).payload.users;
      && (forall u :: u in rows <==> u.id in db.users && db.users[u.id] == u)
      && (forall k, l :: 0 <= k < l < |rows| ==> rows[k].id < rows[l].id)
  {
    if db.fault.None? {
      AllUserRowsListed(db);
    }
  }

  /** GetUser, given the id UserCtx put in the request context, if any. */
  function GetUserResponse(db: DbState, ctxId: Option<int>): Response
  {
    if ctxId.None? then ErrorResponse(StatusUnprocessableEntity)
    else
      match SelectUser(db, ctxId.value)
      case Failure(NotFound) => ErrorResponse(StatusNotFound)
      case Failure(_) => ErrorResponse(StatusInternalServerError)
      case Success(u) => JsonResponse(UserJson(Some(u)))
  }

  /**
   * Without an id in the context the answer is 422; with one it is 404
   * exactly when the store works and holds no such user, 500 exactly when
   * the store fails, and otherwise that user as JSON.
   */
  lemma GetUserResponds(db: DbState, ctxId: Option<int>)
    requires Consistent(db)
    ensures ctxId.None? ==> GetUserResponse(db, ctxId) == ErrorResponse(StatusUnprocessableEntity)
    ensures ctxId.Some? ==>
      && (GetUserResponse(db, ctxId).status == StatusNotFound <==> db.fault.None? && ctxId.value !in db.users)
      && (GetUserResponse(db, ctxId).status == StatusInternalServerError <==> db.fault.Some?)
      && (GetUserResponse(db, ctxId).status == StatusOK <==> db.fault.None? && ctxId.value in db.users)
      && (GetUserResponse(db, ctxId).status == StatusOK ==>
            GetUserResponse(db, ctxId) == JsonResponse(UserJson(Some(db.users[ctxId.value])))
            && db.users[ctxId.value].id == ctxId.value)
  {
    if ctxId.Some? {
      SelectUserFinds(db, ctxId.value);
    }
  }

  /** The response of a create: the failure a write reports, or the stored record as JSON. */
  function CreatedResponse(r: Result<User, StoreError>): Response
  {
    match WriteFailure(ErrorOf(r))
    case Some(failure) => failure
    case None => JsonResponse(UserJson(r.ToOption()))
  }

  /** CreateUser: read, decode, validate, then store. */
  function CreateUserExchange(db: DbState, body: Body<User>): Step<Response>
  {
    match body
    case ReadFailed => Step(ErrorResponse(StatusBadRequest), db)
    case Malformed => Step(ErrorResponse(StatusBadRequest), db)
    case Decoded(u) =>
      if !Validate(u) then Step(ErrorResponse(StatusUnprocessableEntity), db)
      else
        var s := CreateUserRow(db, u);
        Step(CreatedResponse(s.result), s.after)
  }

  /**
   * The checks come in order: an unreadable or undecodable body is a 400
   * and an invalid user a 422, and neither touches the store; a valid
   * user whose address another user already has is a 409
   * and is not stored; a working store otherwise answers with the stored
   * record, under a new id.
   */
  lemma CreateUserResponds(db: DbState, body: Body<User>)
    requires Consistent(db)
    ensures var s := CreateUserExchange(db, body);
      && (s.result.status == StatusBadRequest <==> !body.Decoded?)
      && (body.Decoded? && !Validate(body.value) <==> s.result.status == StatusUnprocessableEntity)
      && (s.result.status in {StatusBadRequest, StatusUnprocessableEntity} ==> s.after == db)
      && (body.Decoded? && Validate(body.value) && db.fault.None? ==>
            && (s.result.status == StatusConflict <==>
                  exists k :: k in db.users && db.users[k].email == body.value.email)
            && (s.result.status == StatusConflict ==> s.after == db)
            && s.result.status in {StatusOK, StatusConflict}
            && (s.result.status == StatusOK ==>
                  && s.result.payload.UserJson?
                  && s.result.payload.user.Some?
                  && var stored := s.result.payload.user.value;
                  && stored == body.value.(id := stored.id)
                  && stored.id !in db.users
                  && GetUserResponse(s.after, Some(stored.id)) == s.result))
      && (body.Decoded? && Validate(body.value) && db.fault == Some(DriverFault) ==>
            s.result.status == StatusInternalServerError && s.after == db)
      && (body.Decoded? && Validate(body.value) && db.fault == Some(SqliteFault(ConstraintUnique)) ==>
            s.result.status == StatusConflict && s.after == db)
      && Consistent(s.after)
  {
    if body.Decoded? && Validate(body.value) {
      var u := body.value;
      CreateUserThenGet(db, u);
      InsertUserOutcome(db, u);
      InsertUserConsistent(db, u);
    }
  }

  /**
   * An sqlite error other than a UNIQUE violation matches neither the 409
   * nor the 500 branch: the handler answers 200 with the JSON `null`.
   */
  lemma CreateUserSqliteFallThrough(db: DbState, u: User, code: int)
    requires Validate(u) && code != ConstraintUnique && db.fault == Some(SqliteFault(code))
    ensures CreateUserExchange(db, Decoded(u)) == Step(JsonResponse(UserJson(None)), db)
  {
  }

  /**
   * An address the e-mail pattern refuses makes the body invalid, so the
   * answer is a 422, not a 400, and the store is not touched.
   */
  lemma CreateUserInvalidEmail(db: DbState, u: User)
    requires !MatchesEmail(u.email)
    ensures CreateUserExchange(db, Decoded(u)) == Step(ErrorResponse(StatusUnprocessableEntity), db)
  {
  }

  /** UpdateUser: the id from the context, read, decode, validate, then create or update. */
  function UpdateUserExchange(db: DbState, ctxId: Option<int>, body: Body<User>): Step<Response>
  {
    if ctxId.None? then Step(ErrorResponse(StatusUnprocessableEntity), db)
    else
      match body
      case ReadFailed => Step(ErrorResponse(StatusBadRequest), db)
      case Malformed => Step(ErrorResponse(StatusBadRequest), db)
      case Decoded(u) =>
        if !Validate(u) then Step(ErrorResponse(StatusUnprocessableEntity), db)
        else if SelectUser(db, ctxId.value) == Failure(NotFound) then
          var s := CreateUserRow(db, u);
          match WriteFailure(ErrorOf(s.result))
          case Some(failure) => Step(failure, s.after)
          case None => Step(Response(StatusCreated, TextPlain, NoBody), s.after)
        else
          var s := UpdateUserRow(db, ctxId.value, u);
          match WriteFailure(s.result)
          case Some(failure) => Step(failure, s.after)
          case None => Step(Response(StatusNoContent, TextPlain, NoBody), s.after)
  }

  /** An update request that is refused before the lookup leaves the store as it was. */
  lemma UpdateUserRefusesEarly(db: DbState, ctxId: Option<int>, body: Body<User>)
    ensures var s := UpdateUserExchange(db, ctxId, body);
      && (ctxId.None? ==> s.result == ErrorResponse(StatusUnprocessableEntity))
      && (ctxId.Some? && !body.Decoded? ==> s.result == ErrorResponse(StatusBadRequest))
      && (ctxId.Some? && body.Decoded? && !Validate(body.value) ==> s.result == ErrorResponse(StatusUnprocessableEntity))
      && (s.result.status in {StatusBadRequest, StatusUnprocessableEntity} ==> s.after == db)
  {
  }

  /**
   * The upsert on a working store. When the path's id is not stored, the
   * body is created as a new user under a fresh id (not under the
   * path's id) and the answer is 201; when it is stored, that row is
   * replaced and the answer is 204; either way an address held by another row
   * is a 409 and changes nothing.
   */
  lemma UpdateUserUpsert(db: DbState, id: int, u: User)
    requires Consistent(db) && db.fault.None? && Validate(u)
    ensures var s := UpdateUserExchange(db, Some(id), Decoded(u));
      && Consistent(s.after)
      && (id !in db.users ==>
            && (s.result.status == StatusCreated <==>
                  !exists k :: k in db.users && db.users[k].email == u.email)
            && (s.result.status == StatusCreated ==>
                  && s.after.users == db.users[db.nextUserId := u.(id := db.nextUserId)]
                  && db.nextUserId !in db.users))
      && (id in db.users ==>
            && (s.result.status == StatusNoContent <==>
                  !exists k :: k in db.users && k != id && db.users[k].email == u.email)
            && (s.result.status == StatusNoContent ==> SelectUser(s.after, id) == Success(u.(id := id))))
      && (s.result.status == StatusConflict ==> s.after == db)
      && s.result.status in {StatusCreated, StatusNoContent, StatusConflict}
      && s.result in {Response(StatusCreated, TextPlain, NoBody), Response(StatusNoContent, TextPlain, NoBody),
                      ErrorResponse(StatusConflict)}
  {
    if id !in db.users {
      InsertUserOutcome(db, u);
      InsertUserConsistent(db, u);
    } else {
      UpdateUserOutcome(db, id, u);
    }
  }

  /**
   * The upsert does not create under the path's id: on an empty table a
   * PUT to any id stores the user as id 1, and the path's id, if it is
   * not 1, is still not found afterwards.
   */
  lemma UpdateUserUpsertIgnoresPathId(id: int, u: User)
    requires Validate(u) && id != 1
    ensures var s := UpdateUserExchange(EmptyDb(None), Some(id), Decoded(u));
      && s.result == Response(StatusCreated, TextPlain, NoBody)
      && SelectUser(s.after, 1) == Success(u.(id := 1))
      && GetUserResponse(s.after, Some(id)) == ErrorResponse(StatusNotFound)
  {
  }

  /**
   * A failing lookup other than NotFound is not reported: the handler goes
   * on to UpdateUser, whose error then decides the answer, and a
   * non-UNIQUE sqlite error ends in a 204 although nothing was written.
   */
  lemma UpdateUserLookupFaultIgnored(db: DbState, id: int, u: User, f: Fault)
    requires Validate(u) && db.fault == Some(f)
    ensures var s := UpdateUserExchange(db, Some(id), Decoded(u));
      && s.after == db
      && (f.DriverFault? ==> s.result == ErrorResponse(StatusInternalServerError))
      && (f.SqliteFault? && f.code == ConstraintUnique ==> s.result == ErrorResponse(StatusConflict))
      && (f.SqliteFault? && f.code != ConstraintUnique ==> s.result == Response(StatusNoContent, TextPlain, NoBody))
  {
    assert SelectUser(db, id) == Failure(FaultError(f));
    assert UpdateUserRow(db, id, u) == Step(Some(FaultError(f)), db);
    var failure := WriteFailure(Some(FaultError(f)));
    assert UpdateUserExchange(db, Some(id), Decoded(u)) ==
      if failure.Some? then Step(failure.value, db) else Step(Response(StatusNoContent, TextPlain, NoBody), db);
  }

  /** The AllUsers handler on a Store. */
  method AllUsers(store: Store) returns (resp: Response)
    ensures resp == AllUsersResponse(store.State())
  {
    var users := store.AllUsers();
    if users.Failure? {
      return ErrorResponse(StatusInternalServerError);
    }
    return JsonResponse(UsersJson(users.value));
  }

  /** The GetUser handler on a Store. */
  method GetUser(store: Store, ctxId: Option<int>) returns (resp: Response)
    ensures resp == GetUserResponse(store.State(), ctxId)
  {
    if ctxId.None? {
      return ErrorResponse(StatusUnprocessableEntity);
    }
    var user := store.GetUser(ctxId.value);
    if user == Failure(NotFound) {
      return ErrorResponse(StatusNotFound);
    } else if user.Failure? {
      return ErrorResponse(StatusInternalServerError);
    }
    return JsonResponse(UserJson(Some(user.value)));
  }

  /** The CreateUser handler on a Store. */
  method CreateUser(store: Store, body: Body<User>) returns (resp: Response)
    requires store.Valid()
    modifies store
    ensures store.Valid()
    ensures Step(resp, store.State()) == CreateUserExchange(old(store.State()), body)
  {
    if body.ReadFailed? {
      return ErrorResponse(StatusBadRequest);
    }
    if body.Malformed? {
      return ErrorResponse(StatusBadRequest);
    }
    var user := body.value;
    if !Validate(user) {
      return ErrorResponse(StatusUnprocessableEntity);
    }
    var created := store.CreateUser(user);
    var failure := WriteFailure(ErrorOf(created));
    if failure.Some? {
      return failure.value;
    }
    return JsonResponse(UserJson(created.ToOption()));
  }

  /** The UpdateUser handler on a Store. */
  method UpdateUser(store: Store, ctxId: Option<int>, body: Body<User>) returns (resp: Response)
    requires store.Valid()
    modifies store
    ensures store.Valid()
    ensures Step(resp, store.State()) == UpdateUserExchange(old(store.State()), ctxId, body)
  {
    if ctxId.None? {
      return ErrorResponse(StatusUnprocessableEntity);
    }
    if body.ReadFailed? {
      return ErrorResponse(StatusBadRequest);
    }
    if body.Malformed? {
      return ErrorResponse(StatusBadRequest);
    }
    var user := body.value;
    if !Validate(user) {
      return ErrorResponse(StatusUnprocessableEntity);
    }
    var existing := store.GetUser(ctxId.value);
    if existing == Failure(NotFound) {
      var created := store.CreateUser(user);
      var failure := WriteFailure(ErrorOf(created));
      if failure.Some? {
        return failure.value;
      }
      return Response(StatusCreated, TextPlain, NoBody);
    }
    var err := store.UpdateUser(ctxId.value, user);
    var failure := WriteFailure(err);
    if failure.Some? {
      return failure.value;
    }
    return Response(StatusNoContent, TextPlain, NoBody);
  }
}
