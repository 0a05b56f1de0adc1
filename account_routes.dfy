/**
 * The account handlers: AccountCtx, AllAccounts, GetAccount, CreateAccount
 * and UpdateAccount. Each is a function giving the response and the store
 * state it leaves, and a method that performs the same steps on a Store.
 */
module AccountRoutes {
  import opened Wrappers
  import opened Numerals
  import opened AccountModel
  import opened Db
  import opened Http

  /** AccountCtx: the `{accountID}` segment as an int, or a 400 before the handler runs. */
  function AccountCtx(param: string): Result<int, Response>
  {
    match Atoi(param)
    case None => Failure(ErrorResponse(StatusBadRequest))
    case Some(id) => Success(id)
  }

  /**
   * AccountCtx lets through exactly the segments strconv.Atoi accepts, so
   * every int64 in its canonical form, and nothing with a stray character.
   */
  lemma AccountCtxAccepts(param: string, n: int)
    requires MinInt <= n <= MaxInt
    ensures AccountCtx(param).Failure? <==> Atoi(param).None?
    ensures AccountCtx(param).Failure? ==> AccountCtx(param).error == ErrorResponse(StatusBadRequest)
    ensures AccountCtx(FormatInt(n)) == Success(n)
  {
    AtoiFormatInt(n);
  }

  /** The segments of the repository's tests: `test` is refused, `1` and a signed `-1` pass. */
  lemma AccountCtxExamples()
    ensures AccountCtx("test") == Failure(ErrorResponse(StatusBadRequest))
    ensures AccountCtx("1") == Success(1)
    ensures AccountCtx("-1") == Success(-1)
    ensures AccountCtx("") == Failure(ErrorResponse(StatusBadRequest))
  {
    AtoiExamples();
  }

  function AllAccountsResponse(db: DbState): Response
  {
    match AllAccountRows(db)
    case Failure(_) => ErrorResponse(StatusInternalServerError)
    case Success(rows) => JsonResponse(AccountsJson(rows))
  }

  /**
   * The listing is a 500 exactly when the store fails, and otherwise the
   * JSON list of every stored account in id order.
   */
  lemma AllAccountsResponds(db: DbState)
    requires Consistent(db)
    ensures AllAccountsResponse(db).status == StatusInternalServerError <==> db.fault.Some?
    ensures db.fault.None? ==>
      && AllAccountsResponse(db).status == StatusOK
      && AllAccountsResponse(db).contentType == ApplicationJson
      && AllAccountsResponse(db).payload.AccountsJson?
      && var rows := AllAccountsResponse(db).payload.accounts;
      && (forall a :: a in rows <==> a.id in db.accounts && db.accounts[a.id] == a)
      && (forall k, l :: 0 <= k < l < |rows| ==> rows[k].id < rows[l].id)
  {
    if db.fault.None? {
      AllAccountRowsListed(db);
    }
  }

  /** GetAccount, given the id AccountCtx put in the request context, if any. */
  function GetAccountResponse(db: DbState, ctxId: Option<int>): Response
  {
    if ctxId.None? then ErrorResponse(StatusUnprocessableEntity)
    else
      match SelectAccount(db, ctxId.value)
      case Failure(NotFound) => ErrorResponse(StatusNotFound)
      case Failure(_) => ErrorResponse(StatusInternalServerError)
      case Success(a) => JsonResponse(AccountJson(Some(a)))
  }

  /**
   * Without an id in the context the answer is 422; with one it is 404
   * exactly when the store works and holds no such account, 500 exactly when
   * the store fails, and otherwise that account as JSON.
   */
  lemma GetAccountResponds(db: DbState, ctxId: Option<int>)
    requires Consistent(db)
    ensures ctxId.None? ==> GetAccountResponse(db, ctxId) == ErrorResponse(StatusUnprocessableEntity)
    ensures ctxId.Some? ==>
      && (GetAccountResponse(db, ctxId).status == StatusNotFound <==> db.fault.None? && ctxId.value !in db.accounts)
      && (GetAccountResponse(db, ctxId).status == StatusInternalServerError <==> db.fault.Some?)
      && (GetAccountResponse(db, ctxId).status == StatusOK <==> db.fault.None? && ctxId.value in db.accounts)
      && (GetAccountResponse(db, ctxId).status == StatusOK ==>
            GetAccountResponse(db, ctxId) == JsonResponse(AccountJson(Some(db.accounts[ctxId.value])))
            && db.accounts[ctxId.value].id == ctxId.value)
  {
    if ctxId.Some? {
      SelectAccountFinds(db, ctxId.value);
    }
  }

  /** The response of a create: the failure a write reports, or the stored record as JSON. */
  function CreatedResponse(r: Result<Account, StoreError>): Response
  {
    match WriteFailure(ErrorOf(r))
    case Some(failure) => failure
    case None => JsonResponse(AccountJson(r.ToOption()))
  }

  /** CreateAccount: read, decode, validate, then store. */
  function CreateAccountExchange(db: DbState, body: Body<Account>): Step<Response>
  {
    match body
    case ReadFailed => Step(ErrorResponse(StatusBadRequest), db)
    case Malformed => Step(ErrorResponse(StatusBadRequest), db)
    case Decoded(a) =>
      if !Validate(a) then Step(ErrorResponse(StatusUnprocessableEntity), db)
      else
        var s := CreateAccountRow(db, a);
        Step(CreatedResponse(s.result), s.after)
  }

  /**
   * The checks come in order: an unreadable or undecodable body is a 400
   * and an invalid account a 422, and neither touches the store; a valid
   * account that another account of the same user already names is a 409
   * and is not stored; a working store otherwise answers with the stored
   * record, under a new id.
   */
  lemma CreateAccountResponds(db: DbState, body: Body<Account>)
    requires Consistent(db)
    ensures var s := CreateAccountExchange(db, body);
      && (s.result.status == StatusBadRequest <==> !body.Decoded?)
      && (body.Decoded? && !Validate(body.value) <==> s.result.status == StatusUnprocessableEntity)
      && (s.result.status in {StatusBadRequest, StatusUnprocessableEntity} ==> s.after == db)
      && (body.Decoded? && Validate(body.value) && db.fault.None? ==>
            && (s.result.status == StatusConflict <==>
                  exists k :: k in db.accounts && db.accounts[k].userId == body.value.userId && db.accounts[k].name == body.value.name)
            && (s.result.status == StatusConflict ==> s.after == db)
            && s.result.status in {StatusOK, StatusConflict}
            && (s.result.status == StatusOK ==>
                  && s.result.payload.AccountJson?
                  && s.result.payload.account.Some?
                  && var stored := s.result.payload.account.value;
                  && stored == body.value.(id := stored.id)
                  && stored.id !in db.accounts
                  && GetAccountResponse(s.after, Some(stored.id)) == s.result))
      && (body.Decoded? && Validate(body.value) && db.fault == Some(DriverFault) ==>
            s.result.status == StatusInternalServerError && s.after == db)
      && (body.Decoded? && Validate(body.value) && db.fault == Some(SqliteFault(ConstraintUnique)) ==>
            s.result.status == StatusConflict && s.after == db)
      && Consistent(s.after)
  {
    if body.Decoded? && Validate(body.value) {
      var a := body.value;
      CreateAccountThenGet(db, a);
      InsertAccountOutcome(db, a);
      InsertAccountConsistent(db, a);
    }
  }

  /**
   * An sqlite error other than a UNIQUE violation matches neither the 409
   * nor the 500 branch: the handler answers 200 with the JSON `null`.
   */
  lemma CreateAccountSqliteFallThrough(db: DbState, a: Account, code: int)
    requires Validate(a) && code != ConstraintUnique && db.fault == Some(SqliteFault(code))
    ensures CreateAccountExchange(db, Decoded(a)) == Step(JsonResponse(AccountJson(None)), db)
  {
  }

  /**
   * json.Unmarshal leaves a missing `accountType` empty rather than failing,
   * so such a body is refused by Validate with a 422, not with a 400.
   */
  lemma CreateAccountMissingType(db: DbState, a: Account)
    requires a.accountType == ""
    ensures CreateAccountExchange(db, Decoded(a)) == Step(ErrorResponse(StatusUnprocessableEntity), db)
  {
  }

  /** UpdateAccount: the id from the context, read, decode, validate, then create or update. */
  function UpdateAccountExchange(db: DbState, ctxId: Option<int>, body: Body<Account>): Step<Response>
  {
    if ctxId.None? then Step(ErrorResponse(StatusUnprocessableEntity), db)
    else
      match body
      case ReadFailed => Step(ErrorResponse(StatusBadRequest), db)
      case Malformed => Step(ErrorResponse(StatusBadRequest), db)
      case Decoded(a) =>
        if !Validate(a) then Step(ErrorResponse(StatusUnprocessableEntity), db)
        else if SelectAccount(db, ctxId.value) == Failure(NotFound) then
          var s := CreateAccountRow(db, a);
          match WriteFailure(ErrorOf(s.result))
          case Some(failure) => Step(failure, s.after)
          case None => Step(Response(StatusCreated, TextPlain, NoBody), s.after)
        else
          var s := UpdateAccountRow(db, ctxId.value, a);
          match WriteFailure(s.result)
          case Some(failure) => Step(failure, s.after)
          case None => Step(Response(StatusNoContent, TextPlain, NoBody), s.after)
  }

  /** An update request that is refused before the lookup leaves the store as it was. */
  lemma UpdateAccountRefusesEarly(db: DbState, ctxId: Option<int>, body: Body<Account>)
    ensures var s := UpdateAccountExchange(db, ctxId, body);
      && (ctxId.None? ==> s.result == ErrorResponse(StatusUnprocessableEntity))
      && (ctxId.Some? && !body.Decoded? ==> s.result == ErrorResponse(StatusBadRequest))
      && (ctxId.Some? && body.Decoded? && !Validate(body.value) ==> s.result == ErrorResponse(StatusUnprocessableEntity))
      && (s.result.status in {StatusBadRequest, StatusUnprocessableEntity} ==> s.after == db)
  {
  }

  /**
   * The upsert on a working store. When the path's id is not stored, the
   * body is created as a new account under a fresh id (not under the
   * path's id) and the answer is 201; when it is stored, that row is
   * replaced and the answer is 204; either way a pair held by another row
   * is a 409 and changes nothing.
   */
  lemma UpdateAccountUpsert(db: DbState, id: int, a: Account)
    requires Consistent(db) && db.fault.None? && Validate(a)
    ensures var s := UpdateAccountExchange(db, Some(id), Decoded(a));
      && Consistent(s.after)
      && (id !in db.accounts ==>
            && (s.result.status == StatusCreated <==>
                  !exists k :: k in db.accounts && db.accounts[k].userId == a.userId && db.accounts[k].name == a.name)
            && (s.result.status == StatusCreated ==>
                  && s.after.accounts == db.accounts[db.nextAccountId := a.(id := db.nextAccountId)]
                  && db.nextAccountId !in db.accounts))
      && (id in db.accounts ==>
            && (s.result.status == StatusNoContent <==>
                  !exists k :: k in db.accounts && k != id && db.accounts[k].userId == a.userId && db.accounts[k].name == a.name)
            && (s.result.status == StatusNoContent ==> SelectAccount(s.after, id) == Success(a.(id := id))))
      && (s.result.status == StatusConflict ==> s.after == db)
      && s.result.status in {StatusCreated, StatusNoContent, StatusConflict}
      && s.result in {Response(StatusCreated, TextPlain, NoBody), Response(StatusNoContent, TextPlain, NoBody),
                      ErrorResponse(StatusConflict)}
  {
    if id !in db.accounts {
      InsertAccountOutcome(db, a);
      InsertAccountConsistent(db, a);
    } else {
      UpdateAccountOutcome(db, id, a);
    }
  }

  /**
   * The upsert does not create under the path's id: on an empty table a
   * PUT to any id stores the account as id 1, and the path's id, if it is
   * not 1, is still not found afterwards.
   */
  lemma UpdateAccountUpsertIgnoresPathId(id: int, a: Account)
    requires Validate(a) && id != 1
    ensures var s := UpdateAccountExchange(EmptyDb(None), Some(id), Decoded(a));
      && s.result == Response(StatusCreated, TextPlain, NoBody)
      && SelectAccount(s.after, 1) == Success(a.(id := 1))
      && GetAccountResponse(s.after, Some(id)) == ErrorResponse(StatusNotFound)
  {
  }

  /**
   * A failing lookup other than NotFound is not reported: the handler goes
   * on to UpdateAccount, whose error then decides the answer, and a
   * non-UNIQUE sqlite error ends in a 204 although nothing was written.
   */
  lemma UpdateAccountLookupFaultIgnored(db: DbState, id: int, a: Account, f: Fault)
    requires Validate(a) && db.fault == Some(f)
    ensures var s := UpdateAccountExchange(db, Some(id), Decoded(a));
      && s.after == db
      && (f.DriverFault? ==> s.result == ErrorResponse(StatusInternalServerError))
      && (f.SqliteFault? && f.code == ConstraintUnique ==> s.result == ErrorResponse(StatusConflict))
      && (f.SqliteFault? && f.code != ConstraintUnique ==> s.result == Response(StatusNoContent, TextPlain, NoBody))
  {
  }

  /** The AllAccounts handler on a Store. */
  method AllAccounts(store: Store) returns (resp: Response)
    ensures resp == AllAccountsResponse(store.State())
  {
    var accounts := store.AllAccounts();
    if accounts.Failure? {
      return ErrorResponse(StatusInternalServerError);
    }
    return JsonResponse(AccountsJson(accounts.value));
  }

  /** The GetAccount handler on a Store. */
  method GetAccount(store: Store, ctxId: Option<int>) returns (resp: Response)
    ensures resp == GetAccountResponse(store.State(), ctxId)
  {
    if ctxId.None? {
      return ErrorResponse(StatusUnprocessableEntity);
    }
    var account := store.GetAccount(ctxId.value);
    if account == Failure(NotFound) {
      return ErrorResponse(StatusNotFound);
    } else if account.Failure? {
      return ErrorResponse(StatusInternalServerError);
    }
    return JsonResponse(AccountJson(Some(account.value)));
  }

  /** The CreateAccount handler on a Store. */
  method CreateAccount(store: Store, body: Body<Account>) returns (resp: Response)
    requires store.Valid()
    modifies store
    ensures store.Valid()
    ensures Step(resp, store.State()) == CreateAccountExchange(old(store.State()), body)
  {
    if body.ReadFailed? {
      return ErrorResponse(StatusBadRequest);
    }
    if body.Malformed? {
      return ErrorResponse(StatusBadRequest);
    }
    var account := body.value;
    if !Validate(account) {
      return ErrorResponse(StatusUnprocessableEntity);
    }
    var created := store.CreateAccount(account);
    var failure := WriteFailure(ErrorOf(created));
    if failure.Some? {
      return failure.value;
    }
    return JsonResponse(AccountJson(created.ToOption()));
  }

  /** The UpdateAccount handler on a Store. */
  method UpdateAccount(store: Store, ctxId: Option<int>, body: Body<Account>) returns (resp: Response)
    requires store.Valid()
    modifies store
    ensures store.Valid()
    ensures Step(resp, store.State()) == UpdateAccountExchange(old(store.State()), ctxId, body)
  {
    if ctxId.None? {
      return ErrorResponse(StatusUnprocessableEntity);
    }
    if body.ReadFailed? {
      return ErrorResponse(StatusBadRequest);
    }
    if body.Malformed? {
      return ErrorResponse(StatusBadRequest);
    }
    var account := body.value;
    if !Validate(account) {
      return ErrorResponse(StatusUnprocessableEntity);
    }
    var existing := store.GetAccount(ctxId.value);
    if existing == Failure(NotFound) {
      var created := store.CreateAccount(account);
      var failure := WriteFailure(ErrorOf(created));
      if failure.Some? {
        return failure.value;
      }
      return Response(StatusCreated, TextPlain, NoBody);
    }
    var err := store.UpdateAccount(ctxId.value, account);
    var failure := WriteFailure(err);
    if failure.Some? {
      return failure.value;
    }
    return Response(StatusNoContent, TextPlain, NoBody);
  }
}
