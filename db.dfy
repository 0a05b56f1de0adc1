/**
 * The data store behind the handlers: the users and accounts tables with
 * the constraints their schema declares (the id is the primary key,
 * `email` is UNIQUE for users, the pair (`user_id`, `name`) is UNIQUE for
 * accounts), the errors a store call reports, and the Store interface's
 * operations.
 *
 * Every operation is first a function from one table state to the next
 * (what the SQL statement does), and then a method of the class Store,
 * which holds the tables and performs the operation step by step; each
 * method is proved to do what its function says.
 */
module Db {
  import opened Wrappers
  import opened AccountModel
  import opened UserModel

  /** SQLITE_CONSTRAINT_UNIQUE, the extended result code of a UNIQUE violation. */
  const ConstraintUnique: int := 2067

  /**
   * Why a statement fails regardless of the data: sqlite reports an error
   * with an extended result code, or the failure comes from elsewhere (the
   * driver, the connection).
   */
  datatype Fault = SqliteFault(code: int) | DriverFault

  /** The errors a Store call returns: ErrNotFound, an sqlite3.Error, or any other error. */
  datatype StoreError = NotFound | Sqlite(extendedCode: int) | OtherError

  function FaultError(f: Fault): StoreError
  {
    match f
    case SqliteFault(code) => Sqlite(code)
    case DriverFault => OtherError
  }

  /**
   * The contents of the database: both tables keyed by id, the id the next
   * insert into each table receives, and the fault, if any, that makes
   * every statement fail.
   */
  datatype DbState = DbState(
    users: map<int, User>,
    accounts: map<int, Account>,
    nextUserId: int,
    nextAccountId: int,
    fault: Option<Fault>)

  /** The result of a statement together with the state it leaves. */
  datatype Step<T> = Step(result: T, after: DbState)

  /** Every row is stored under its own id, and every id was handed out before `next`. */
  predicate AccountsKeyed(t: map<int, Account>, next: int)
  {
    forall id :: id in t ==> 1 <= id < next && t[id].id == id
  }

  predicate UsersKeyed(t: map<int, User>, next: int)
  {
    forall id :: id in t ==> 1 <= id < next && t[id].id == id
  }

  /** UNIQUE("user_id", "name") of the accounts table. */
  predicate AccountPairsUnique(t: map<int, Account>)
  {
    forall i, j :: i in t && j in t && i != j ==> t[i].userId != t[j].userId || t[i].name != t[j].name
  }

  /** `"email" TEXT NOT NULL UNIQUE` of the users table. */
  predicate EmailsUnique(t: map<int, User>)
  {
    forall i, j :: i in t && j in t && i != j ==> t[i].email != t[j].email
  }

  /** What the schema guarantees of every state the database can be in. */
  predicate Consistent(db: DbState)
  {
    && 1 <= db.nextUserId
    && 1 <= db.nextAccountId
    && UsersKeyed(db.users, db.nextUserId)
    && AccountsKeyed(db.accounts, db.nextAccountId)
    && EmailsUnique(db.users)
    && AccountPairsUnique(db.accounts)
  }

  /** A freshly created database. */
  function EmptyDb(fault: Option<Fault>): DbState
  {
    DbState(map[], map[], 1, 1, fault)
  }

  /** The row `k` holds the (user_id, name) pair of `a`. */
  predicate HoldsPair(t: map<int, Account>, k: int, a: Account)
  {
    k in t && t[k].userId == a.userId && t[k].name == a.name
  }

  /** The row `k` holds the e-mail address of `u`. */
  predicate HoldsEmail(t: map<int, User>, k: int, u: User)
  {
    k in t && t[k].email == u.email
  }

  // ---------------------------------------------------------------------
  // SELECT * FROM ...: the rows in id order.

  /** The rows of `t` whose ids lie in [1, hi), in increasing id order. */
  function Rows<T>(t: map<int, T>, hi: int): seq<T>
    decreases hi
  {
    if hi <= 1 then []
    else Rows(t, hi - 1) + (if hi - 1 in t then [t[hi - 1]] else [])
  }

  /** The ids of the rows listed by Rows, in the same order. */
  function RowIds<T>(t: map<int, T>, hi: int): (ids: seq<int>)
    decreases hi
  {
    if hi <= 1 then []
    else RowIds(t, hi - 1) + (if hi - 1 in t then [hi - 1] else [])
  }

  /**
   * Rows lists each row of `t` with an id in [1, hi) exactly once, in
   * strictly increasing id order.
   */
  lemma {:induction false} RowsListed<T>(t: map<int, T>, hi: int)
    ensures |Rows(t, hi)| == |RowIds(t, hi)|
    ensures forall k :: 0 <= k < |RowIds(t, hi)| ==>
      RowIds(t, hi)[k] in t && 1 <= RowIds(t, hi)[k] < hi && Rows(t, hi)[k] == t[RowIds(t, hi)[k]]
    ensures forall k, l :: 0 <= k < l < |RowIds(t, hi)| ==> RowIds(t, hi)[k] < RowIds(t, hi)[l]
    ensures forall id :: id in t && 1 <= id < hi ==> id in RowIds(t, hi)
    decreases hi
  {
    if hi > 1 {
      RowsListed(t, hi - 1);
    }
  }

  function AllAccountRows(db: DbState): Result<seq<Account>, StoreError>
  {
    if db.fault.Some? then Failure(FaultError(db.fault.value))
    else Success(Rows(db.accounts, db.nextAccountId))
  }

  function AllUserRows(db: DbState): Result<seq<User>, StoreError>
  {
    if db.fault.Some? then Failure(FaultError(db.fault.value))
    else Success(Rows(db.users, db.nextUserId))
  }

  /**
   * On a consistent database the account listing holds exactly the stored
   * accounts, each once, in strictly increasing id order.
   */
  lemma AllAccountRowsListed(db: DbState)
    requires Consistent(db) && db.fault.None?
    ensures var rows := AllAccountRows(db).value;
      && (forall a :: a in rows <==> a.id in db.accounts && db.accounts[a.id] == a)
      && (forall k, l :: 0 <= k < l < |rows| ==> rows[k].id < rows[l].id)
  {
    var t, hi := db.accounts, db.nextAccountId;
    RowsListed(t, hi);
    var rows, ids := Rows(t, hi), RowIds(t, hi);
    forall a ensures a in rows <==> a.id in t && t[a.id] == a {
      if a.id in t && t[a.id] == a {
        var k :| 0 <= k < |ids| && ids[k] == a.id;
        assert rows[k] == a;
      }
    }
  }

  /** The same for the user listing. */
  lemma AllUserRowsListed(db: DbState)
    requires Consistent(db) && db.fault.None?
    ensures var rows := AllUserRows(db).value;
      && (forall u :: u in rows <==> u.id in db.users && db.users[u.id] == u)
      && (forall k, l :: 0 <= k < l < |rows| ==> rows[k].id < rows[l].id)
  {
    var t, hi := db.users, db.nextUserId;
    RowsListed(t, hi);
    var rows, ids := Rows(t, hi), RowIds(t, hi);
    forall u ensures u in rows <==> u.id in t && t[u.id] == u {
      if u.id in t && t[u.id] == u {
        var k :| 0 <= k < |ids| && ids[k] == u.id;
        assert rows[k] == u;
      }
    }
  }

  // ---------------------------------------------------------------------
  // SELECT * FROM ... WHERE id = ?

  function SelectAccount(db: DbState, id: int): Result<Account, StoreError>
  {
    if db.fault.Some? then Failure(FaultError(db.fault.value))
    else if id !in db.accounts then Failure(NotFound)
    else Success(db.accounts[id])
  }

  function SelectUser(db: DbState, id: int): Result<User, StoreError>
  {
    if db.fault.Some? then Failure(FaultError(db.fault.value))
    else if id !in db.users then Failure(NotFound)
    else Success(db.users[id])
  }

  /** GetAccount reports NotFound exactly when the database works and holds no row with that id. */
  lemma SelectAccountFinds(db: DbState, id: int)
    requires Consistent(db)
    ensures SelectAccount(db, id) == Failure(NotFound) <==> db.fault.None? && id !in db.accounts
    ensures SelectAccount(db, id).Success? ==> SelectAccount(db, id).value.id == id
    ensures db.fault.Some? ==> SelectAccount(db, id) == Failure(FaultError(db.fault.value))
  {
  }

  lemma SelectUserFinds(db: DbState, id: int)
    requires Consistent(db)
    ensures SelectUser(db, id) == Failure(NotFound) <==> db.fault.None? && id !in db.users
    ensures SelectUser(db, id).Success? ==> SelectUser(db, id).value.id == id
    ensures db.fault.Some? ==> SelectUser(db, id) == Failure(FaultError(db.fault.value))
  {
  }

  // ---------------------------------------------------------------------
  // INSERT INTO ...: the id column is not supplied, so the row gets a fresh
  // one whatever id the record carries; LastInsertId reports it.

  function InsertAccount(db: DbState, a: Account): Step<Result<int, StoreError>>
  {
    if db.fault.Some? then Step(Failure(FaultError(db.fault.value)), db)
    else if exists k :: k in db.accounts && HoldsPair(db.accounts, k, a) then
      Step(Failure(Sqlite(ConstraintUnique)), db)
    else
      var id := db.nextAccountId;
      Step(Success(id), db.(accounts := db.accounts[id := a.(id := id)], nextAccountId := id + 1))
  }

  function InsertUser(db: DbState, u: User): Step<Result<int, StoreError>>
  {
    if db.fault.Some? then Step(Failure(FaultError(db.fault.value)), db)
    else if exists k :: k in db.users && HoldsEmail(db.users, k, u) then
      Step(Failure(Sqlite(ConstraintUnique)), db)
    else
      var id := db.nextUserId;
      Step(Success(id), db.(users := db.users[id := u.(id := id)], nextUserId := id + 1))
  }

  /** Inserting keeps every constraint of the schema. */
  lemma InsertAccountConsistent(db: DbState, a: Account)
    requires Consistent(db)
    ensures Consistent(InsertAccount(db, a).after)
  {
    var s := InsertAccount(db, a);
    if s.result.Success? {
      var t := s.after.accounts;
      forall i, j | i in t && j in t && i != j
        ensures t[i].userId != t[j].userId || t[i].name != t[j].name
      {
        if i == db.nextAccountId {
          assert !HoldsPair(db.accounts, j, a);
        } else if j == db.nextAccountId {
          assert !HoldsPair(db.accounts, i, a);
        }
      }
    }
  }

  lemma InsertUserConsistent(db: DbState, u: User)
    requires Consistent(db)
    ensures Consistent(InsertUser(db, u).after)
  {
    var s := InsertUser(db, u);
    if s.result.Success? {
      var t := s.after.users;
      forall i, j | i in t && j in t && i != j
        ensures t[i].email != t[j].email
      {
        if i == db.nextUserId {
          assert !HoldsEmail(db.users, j, u);
        } else if j == db.nextUserId {
          assert !HoldsEmail(db.users, i, u);
        }
      }
    }
  }

  /**
   * An insert fails with the database's fault if there is one, fails with a
   * UNIQUE violation and changes nothing if another account of the same
   * user has the same name, and otherwise stores the record under a new id,
   * whatever id the record carried, leaving every other row as it was.
   */
  lemma InsertAccountOutcome(db: DbState, a: Account)
    requires Consistent(db)
    ensures var s := InsertAccount(db, a);
      && (db.fault.Some? ==> s == Step(Failure(FaultError(db.fault.value)), db))
      && (db.fault.None? && (exists id :: id in db.accounts && db.accounts[id].userId == a.userId && db.accounts[id].name == a.name) ==>
            s == Step(Failure(Sqlite(ConstraintUnique)), db))
      && (s.result.Success? <==> db.fault.None? && forall id :: id in db.accounts ==> db.accounts[id].userId != a.userId || db.accounts[id].name != a.name)
      && (s.result.Success? ==>
            && s.result.value !in db.accounts
            && s.after.accounts == db.accounts[s.result.value := a.(id := s.result.value)]
            && s.after.users == db.users)
  {
    if db.fault.None? {
      if exists id :: id in db.accounts && db.accounts[id].userId == a.userId && db.accounts[id].name == a.name {
        var id :| id in db.accounts && db.accounts[id].userId == a.userId && db.accounts[id].name == a.name;
        assert HoldsPair(db.accounts, id, a);
      }
    }
  }

  /**
   * An insert fails with the database's fault if there is one, fails with a
   * UNIQUE violation and changes nothing if another user has the same
   * address, and otherwise stores the record under a new id.
   */
  lemma InsertUserOutcome(db: DbState, u: User)
    requires Consistent(db)
    ensures var s := InsertUser(db, u);
      && (db.fault.Some? ==> s == Step(Failure(FaultError(db.fault.value)), db))
      && (db.fault.None? && (exists id :: id in db.users && db.users[id].email == u.email) ==>
            s == Step(Failure(Sqlite(ConstraintUnique)), db))
      && (s.result.Success? <==> db.fault.None? && forall id :: id in db.users ==> db.users[id].email != u.email)
      && (s.result.Success? ==>
            && s.result.value !in db.users
            && s.after.users == db.users[s.result.value := u.(id := s.result.value)]
            && s.after.accounts == db.accounts)
  {
    if db.fault.None? {
      if exists id :: id in db.users && db.users[id].email == u.email {
        var id :| id in db.users && db.users[id].email == u.email;
        assert HoldsEmail(db.users, id, u);
      }
    }
  }

  /**
   * Store.CreateAccount: insert, ask for the new row's id, and read the row
   * back under it. An insert failure is returned without reading.
   */
  function CreateAccountRow(db: DbState, a: Account): Step<Result<Account, StoreError>>
  {
    var s := InsertAccount(db, a);
    match s.result
    case Failure(e) => Step(Failure(e), s.after)
    case Success(id) => Step(SelectAccount(s.after, id), s.after)
  }

  /** Store.CreateUser, in the same three steps. */
  function CreateUserRow(db: DbState, u: User): Step<Result<User, StoreError>>
  {
    var s := InsertUser(db, u);
    match s.result
    case Failure(e) => Step(Failure(e), s.after)
    case Success(id) => Step(SelectUser(s.after, id), s.after)
  }

  /**
   * A created account is returned as stored: the record with its new id,
   * which a later GetAccount finds; it succeeds exactly when the database
   * answers and no account of the same user has the name; a failed create
   * changes nothing.
   */
  lemma CreateAccountThenGet(db: DbState, a: Account)
    requires Consistent(db)
    ensures var s := CreateAccountRow(db, a);
      && (s.result.Success? ==>
            && s.result.value == a.(id := s.result.value.id)
            && s.result.value.id !in db.accounts
            && SelectAccount(s.after, s.result.value.id) == s.result)
      && (s.result.Success? <==>
            db.fault.None? && !exists k :: k in db.accounts && db.accounts[k].userId == a.userId && db.accounts[k].name == a.name)
      && (s.result.Failure? ==> s.after == db && s.result.error != NotFound)
  {
    InsertAccountOutcome(db, a);
  }

  lemma CreateUserThenGet(db: DbState, u: User)
    requires Consistent(db)
    ensures var s := CreateUserRow(db, u);
      && (s.result.Success? ==>
            && s.result.value == u.(id := s.result.value.id)
            && s.result.value.id !in db.users
            && SelectUser(s.after, s.result.value.id) == s.result)
      && (s.result.Success? <==> db.fault.None? && !exists k :: k in db.users && db.users[k].email == u.email)
      && (s.result.Failure? ==> s.after == db && s.result.error != NotFound)
  {
    InsertUserOutcome(db, u);
  }

  /**
   * The pair, not the name alone, is unique: once an account is created, a
   * second one with the same name and user is refused, while the same name
   * under another user is accepted when nothing else holds that pair.
   */
  lemma AccountNameUniquePerUser(db: DbState, a: Account, b: Account)
    requires Consistent(db) && db.fault.None?
    requires CreateAccountRow(db, a).result.Success?
    requires b.name == a.name
    ensures var after := CreateAccountRow(db, a).after;
      && (b.userId == a.userId ==> CreateAccountRow(after, b) == Step(Failure(Sqlite(ConstraintUnique)), after))
      && (b.userId != a.userId && !(exists k :: k in db.accounts && HoldsPair(db.accounts, k, b)) ==> CreateAccountRow(after, b).result.Success?)
  {
    var after := CreateAccountRow(db, a).after;
    var id := db.nextAccountId;
    InsertAccountOutcome(db, a);
    InsertAccountConsistent(db, a);
    assert id in after.accounts && after.accounts[id].userId == a.userId && after.accounts[id].name == a.name;
    if b.userId == a.userId {
      assert HoldsPair(after.accounts, id, b);
    } else if !(exists k :: k in db.accounts && HoldsPair(db.accounts, k, b)) {
      assert !(exists k :: k in after.accounts && HoldsPair(after.accounts, k, b)) by {
        forall k | k in after.accounts ensures !HoldsPair(after.accounts, k, b) {
          if k != id {
            assert !HoldsPair(db.accounts, k, b);
          }
        }
      }
      InsertAccountOutcome(after, b);
    }
  }

  /** A second user with an address already taken is refused, and nothing changes. */
  lemma EmailUnique(db: DbState, u: User, v: User)
    requires Consistent(db) && db.fault.None?
    requires CreateUserRow(db, u).result.Success?
    requires v.email == u.email
    ensures var after := CreateUserRow(db, u).after;
      CreateUserRow(after, v) == Step(Failure(Sqlite(ConstraintUnique)), after)
  {
    var after := CreateUserRow(db, u).after;
    var id := db.nextUserId;
    InsertUserOutcome(db, u);
    assert id in after.users && after.users[id].email == u.email;
    assert HoldsEmail(after.users, id, v);
  }

  // ---------------------------------------------------------------------
  // UPDATE and DELETE. The store code for these two is not part of this
  // model; they are given the meaning of the plain SQL statements
  // `UPDATE ... SET ... WHERE id = ?` and `DELETE FROM ... WHERE id = ?`:
  // an UPDATE that matches no row succeeds and changes nothing, and the
  // UNIQUE constraints are checked against the other rows. An account
  // DELETE that affects no row reports NotFound; a user DELETE that affects
  // no row succeeds.

  function UpdateAccountRow(db: DbState, id: int, a: Account): Step<Option<StoreError>>
  {
    if db.fault.Some? then Step(Some(FaultError(db.fault.value)), db)
    else if id !in db.accounts then Step(None, db)
    else if exists k :: k in db.accounts && k != id && HoldsPair(db.accounts, k, a) then Step(Some(Sqlite(ConstraintUnique)), db)
    else Step(None, db.(accounts := db.accounts[id := a.(id := id)]))
  }

  function UpdateUserRow(db: DbState, id: int, u: User): Step<Option<StoreError>>
  {
    if db.fault.Some? then Step(Some(FaultError(db.fault.value)), db)
    else if id !in db.users then Step(None, db)
    else if exists k :: k in db.users && k != id && HoldsEmail(db.users, k, u) then Step(Some(Sqlite(ConstraintUnique)), db)
    else Step(None, db.(users := db.users[id := u.(id := id)]))
  }

  function DeleteAccountRow(db: DbState, id: int): Step<Option<StoreError>>
  {
    if db.fault.Some? then Step(Some(FaultError(db.fault.value)), db)
    else if id !in db.accounts then Step(Some(NotFound), db)
    else Step(None, db.(accounts := db.accounts - {id}))
  }

  function DeleteUserRow(db: DbState, id: int): Step<Option<StoreError>>
  {
    if db.fault.Some? then Step(Some(FaultError(db.fault.value)), db)
    else Step(None, db.(users := db.users - {id}))
  }

  /**
   * An update keeps every constraint; when it succeeds on a stored id, a
   * later GetAccount returns the new record under the old id, and no other
   * row changes. It is refused only for a fault or for a pair held by
   * another row.
   */
  lemma UpdateAccountOutcome(db: DbState, id: int, a: Account)
    requires Consistent(db)
    ensures var s := UpdateAccountRow(db, id, a);
      && Consistent(s.after)
      && (s.result.None? && id in db.accounts ==> SelectAccount(s.after, id) == Success(a.(id := id)))
      && (forall k :: k != id ==> SelectAccount(s.after, k) == SelectAccount(db, k))
      && s.after.users == db.users
      && (db.fault.None? ==> (s.result == Some(Sqlite(ConstraintUnique)) <==>
            id in db.accounts && exists k :: k in db.accounts && k != id && db.accounts[k].userId == a.userId && db.accounts[k].name == a.name))
      && (db.fault.Some? ==> s == Step(Some(FaultError(db.fault.value)), db))
  {
    var s := UpdateAccountRow(db, id, a);
    if s.result.None? && id in db.accounts {
      var t := s.after.accounts;
      forall i, j | i in t && j in t && i != j
        ensures t[i].userId != t[j].userId || t[i].name != t[j].name
      {
        if i == id {
          assert !HoldsPair(db.accounts, j, a);
        } else if j == id {
          assert !HoldsPair(db.accounts, i, a);
        }
      }
    }
  }

  /** The same for users, with the address in place of the pair. */
  lemma UpdateUserOutcome(db: DbState, id: int, u: User)
    requires Consistent(db)
    ensures var s := UpdateUserRow(db, id, u);
      && Consistent(s.after)
      && (s.result.None? && id in db.users ==> SelectUser(s.after, id) == Success(u.(id := id)))
      && (forall k :: k != id ==> SelectUser(s.after, k) == SelectUser(db, k))
      && s.after.accounts == db.accounts
      && (db.fault.None? ==> (s.result == Some(Sqlite(ConstraintUnique)) <==>
            id in db.users && exists k :: k in db.users && k != id && db.users[k].email == u.email))
      && (db.fault.Some? ==> s == Step(Some(FaultError(db.fault.value)), db))
  {
    var s := UpdateUserRow(db, id, u);
    if s.result.None? && id in db.users {
      var t := s.after.users;
      forall i, j | i in t && j in t && i != j
        ensures t[i].email != t[j].email
      {
        if i == id {
          assert !HoldsEmail(db.users, j, u);
        } else if j == id {
          assert !HoldsEmail(db.users, i, u);
        }
      }
    }
  }

  /**
   * A delete keeps every constraint, after it the id is not found, and no
   * other row changes; deleting an id no row has is reported as NotFound.
   */
  lemma DeleteAccountOutcome(db: DbState, id: int)
    requires Consistent(db)
    ensures var s := DeleteAccountRow(db, id);
      && Consistent(s.after)
      && (s.result == Some(NotFound) <==> db.fault.None? && id !in db.accounts)
      && (s.result.None? <==> db.fault.None? && id in db.accounts)
      && (s.result.Some? ==> s.after == db)
      && (s.result.None? ==> SelectAccount(s.after, id) == Failure(NotFound))
      && (forall k :: k != id ==> SelectAccount(s.after, k) == SelectAccount(db, k))
  {
  }

  lemma DeleteUserOutcome(db: DbState, id: int)
    requires Consistent(db)
    ensures var s := DeleteUserRow(db, id);
      && Consistent(s.after)
      && (s.result.None? ==> SelectUser(s.after, id) == Failure(NotFound))
      && (forall k :: k != id ==> SelectUser(s.after, k) == SelectUser(db, k))
  {
  }

  // ---------------------------------------------------------------------
  // The store itself.

  /**
   * The database handle the handlers share. Its methods are the Store
   * interface; each performs its statement on the fields and is proved to
   * agree with the function above that states what the statement does.
   */
  class Store {
    var users: map<int, User>
    var accounts: map<int, Account>
    var nextUserId: int
    var nextAccountId: int
    var fault: Option<Fault>

    function State(): DbState
      reads this
    {
      DbState(users, accounts, nextUserId, nextAccountId, fault)
    }

    predicate Valid()
      reads this
    {
      Consistent(State())
    }

    /** An empty database, failing with `fault` if one is given. */
    constructor (fault: Option<Fault>)
      ensures State() == EmptyDb(fault) && Valid()
    {
      users := map[];
      accounts := map[];
      nextUserId := 1;
      nextAccountId := 1;
      this.fault := fault;
    }

    /** AllAccounts: every row of the accounts table, in id order. */
    method AllAccounts() returns (r: Result<seq<Account>, StoreError>)
      ensures r == AllAccountRows(State())
    {
      if fault.Some? {
        return Failure(FaultError(fault.value));
      }
      var rows: seq<Account> := [];
      var id := 1;
      while id < nextAccountId
        invariant 1 <= id && (id <= nextAccountId || id == 1)
        invariant rows == Rows(accounts, id)
      {
        if id in accounts {
          rows := rows + [accounts[id]];
        }
        id := id + 1;
      }
      return Success(rows);
    }

    /** AllUsers: every row of the users table, in id order. */
    method AllUsers() returns (r: Result<seq<User>, StoreError>)
      ensures r == AllUserRows(State())
    {
      if fault.Some? {
        return Failure(FaultError(fault.value));
      }
      var rows: seq<User> := [];
      var id := 1;
      while id < nextUserId
        invariant 1 <= id && (id <= nextUserId || id == 1)
        invariant rows == Rows(users, id)
      {
        if id in users {
          rows := rows + [users[id]];
        }
        id := id + 1;
      }
      return Success(rows);
    }

    method GetAccount(id: int) returns (r: Result<Account, StoreError>)
      ensures r == SelectAccount(State(), id)
    {
      if fault.Some? {
        return Failure(FaultError(fault.value));
      }
      if id !in accounts {
        return Failure(NotFound);
      }
      return Success(accounts[id]);
    }

    method GetUser(id: int) returns (r: Result<User, StoreError>)
      ensures r == SelectUser(State(), id)
    {
      if fault.Some? {
        return Failure(FaultError(fault.value));
      }
      if id !in users {
        return Failure(NotFound);
      }
      return Success(users[id]);
    }

    /** CreateAccount: insert, take the id the insert was given, read the row back. */
    method CreateAccount(a: Account) returns (r: Result<Account, StoreError>)
      modifies this
      ensures Step(r, State()) == CreateAccountRow(old(State()), a)
      ensures old(Valid()) ==> Valid()
    {
      ghost var before := State();
      if fault.Some? {
        return Failure(FaultError(fault.value));
      }
      if exists k :: k in accounts && HoldsPair(accounts, k, a) {
        return Failure(Sqlite(ConstraintUnique));
      }
      var id := nextAccountId;
      accounts := accounts[id := a.(id := id)];
      nextAccountId := id + 1;
      r := GetAccount(id);
      if Consistent(before) {
        InsertAccountConsistent(before, a);
      }
    }

    /** CreateUser: insert, take the id the insert was given, read the row back. */
    method CreateUser(u: User) returns (r: Result<User, StoreError>)
      modifies this
      ensures Step(r, State()) == CreateUserRow(old(State()), u)
      ensures old(Valid()) ==> Valid()
    {
      ghost var before := State();
      if fault.Some? {
        return Failure(FaultError(fault.value));
      }
      if exists k :: k in users && HoldsEmail(users, k, u) {
        return Failure(Sqlite(ConstraintUnique));
      }
      var id := nextUserId;
      users := users[id := u.(id := id)];
      nextUserId := id + 1;
      r := GetUser(id);
      if Consistent(before) {
        InsertUserConsistent(before, u);
      }
    }

    method UpdateAccount(id: int, a: Account) returns (err: Option<StoreError>)
      modifies this
      ensures Step(err, State()) == UpdateAccountRow(old(State()), id, a)
      ensures old(Valid()) ==> Valid()
    {
      ghost var before := State();
      if Consistent(before) {
        UpdateAccountOutcome(before, id, a);
      }
      if fault.Some? {
        return Some(FaultError(fault.value));
      }
      if id !in accounts {
        return None;
      }
      if exists k :: k in accounts && k != id && HoldsPair(accounts, k, a) {
        return Some(Sqlite(ConstraintUnique));
      }
      accounts := accounts[id := a.(id := id)];
      return None;
    }

    method UpdateUser(id: int, u: User) returns (err: Option<StoreError>)
      modifies this
      ensures Step(err, State()) == UpdateUserRow(old(State()), id, u)
      ensures old(Valid()) ==> Valid()
    {
      ghost var before := State();
      if Consistent(before) {
        UpdateUserOutcome(before, id, u);
      }
      if fault.Some? {
        return Some(FaultError(fault.value));
      }
      if id !in users {
        return None;
      }
      if exists k :: k in users && k != id && HoldsEmail(users, k, u) {
        return Some(Sqlite(ConstraintUnique));
      }
      users := users[id := u.(id := id)];
      return None;
    }

    method DeleteAccount(id: int) returns (err: Option<StoreError>)
      modifies this
      ensures Step(err, State()) == DeleteAccountRow(old(State()), id)
      ensures old(Valid()) ==> Valid()
    {
      if fault.Some? {
        return Some(FaultError(fault.value));
      }
      if id !in accounts {
        return Some(NotFound);
      }
      accounts := accounts - {id};
      return None;
    }

    method DeleteUser(id: int) returns (err: Option<StoreError>)
      modifies this
      ensures Step(err, State()) == DeleteUserRow(old(State()), id)
      ensures old(Valid()) ==> Valid()
    {
      if fault.Some? {
        return Some(FaultError(fault.value));
      }
      users := users - {id};
      return None;
    }
  }

  // ---------------------------------------------------------------------
  // InitDB: open, ping, then create the users table and the accounts table.

  datatype Table = UsersTable | AccountsTable

  /**
   * Which start-up step fails, as the driver and the file system decide:
   * opening the database, pinging it, or creating either table.
   */
  datatype Startup = Startup(openFails: bool, pingFails: bool, usersFails: bool, accountsFails: bool)

  /** InitDB returns a handle, returns an error, or panics. */
  datatype InitResult = Opened | Failed | Panicked

  /** The tables a database file holds. */
  class Schema {
    var tables: set<Table>

    constructor (tables: set<Table>)
      ensures this.tables == tables
    {
      this.tables := tables;
    }

    /** CREATE TABLE IF NOT EXISTS: adds the table unless the statement fails; an existing table is kept. */
    method CreateTable(t: Table, fails: bool) returns (ok: bool)
      modifies this
      ensures ok == !fails
      ensures tables == if fails then old(tables) else old(tables) + {t}
    {
      if fails {
        return false;
      }
      tables := tables + {t};
      return true;
    }
  }

  /** What InitDB returns and which tables the database holds afterwards. */
  function InitTables(tables: set<Table>, st: Startup): (InitResult, set<Table>)
  {
    if st.openFails || st.pingFails then (Failed, tables)
    else if st.usersFails then (Panicked, tables)
    else if st.accountsFails then (Panicked, tables + {UsersTable})
    else (Opened, tables + {UsersTable, AccountsTable})
  }

  method InitDB(schema: Schema, st: Startup) returns (r: InitResult)
    modifies schema
    ensures (r, schema.tables) == InitTables(old(schema.tables), st)
  {
    if st.openFails {
      return Failed;
    }
    if st.pingFails {
      return Failed;
    }
    var ok := schema.CreateTable(UsersTable, st.usersFails);
    if !ok {
      return Panicked;
    }
    ok := schema.CreateTable(AccountsTable, st.accountsFails);
    if !ok {
      return Panicked;
    }
    assert schema.tables == old(schema.tables) + {UsersTable, AccountsTable};
    return Opened;
  }

  /**
   * An error is returned exactly when opening or pinging fails, and then no
   * table is created; a failing table creation panics instead; a handle is
   * returned only with both tables in place; tables are only ever added.
   */
  lemma InitOutcomes(tables: set<Table>, st: Startup)
    ensures var (r, after) := InitTables(tables, st);
      && (r == Failed <==> st.openFails || st.pingFails)
      && (r == Failed ==> after == tables)
      && (r == Panicked <==> !st.openFails && !st.pingFails && (st.usersFails || st.accountsFails))
      && (r == Opened ==> UsersTable in after && AccountsTable in after)
      && tables <= after
  {
  }

  /** The users table is created first: a failure there leaves the accounts table uncreated. */
  lemma InitUsersFirst(tables: set<Table>, st: Startup)
    ensures var after := InitTables(tables, st).1;
      && (AccountsTable in after - tables ==> UsersTable in after)
      && (st.usersFails ==> after == tables)
  {
  }

  /** Initialising an initialised database again changes nothing. */
  lemma InitIdempotent(tables: set<Table>, st: Startup)
    requires !st.openFails && !st.pingFails && !st.usersFails && !st.accountsFails
    ensures var after := InitTables(tables, st).1;
      InitTables(after, st) == (Opened, after)
  {
  }
}
