# dinero API core in Dafny

This project models the core of the dinero backend. That backend is a small Go HTTP service that keeps users and the bill
accounts they track in an sqlite database. The model covers:

- **Record validation.** `Account.Validate` and `User.Validate` become predicates over explicit character and segment
  checks. The Go regular expressions, including the email grammar, are restated and proved equivalent to a declarative
  language definition.
- **The store.** The two tables become maps from id to record, with the constraints the schema declares: the primary key,
  `email UNIQUE` on users and `UNIQUE(user_id, name)` on accounts. An error the database may report is a field of the
  state. The pure functions `SelectAccount`, `InsertAccount`, `CreateAccountRow` and the rest specify the `Db.Store`
  class, whose methods perform the same steps on mutable fields. `InitDB` runs over a `Schema` class.
- **The handlers.** Each handler of `api/routes/account.go` and `api/routes/user.go` is a pure exchange function. It maps
  the id that the context middleware parsed, the body outcome and the store state to a response (status, content type,
  payload) and to the state left behind. An imperative method, proved equal to the exchange, performs the same calls on a
  `Store`.
- **The router.** `NewRouter` becomes a lookup from method and path shape to a handler. `Serve` puts the lookup together
  with the middleware order of the router: an unknown verb gives 405, an unrouted path gives 404, the id middleware of an
  `/{id}` route runs before the method check, and a registered method without a route gives the `MethodNotAllowed`
  handler.

Modules, one per file:

| file | module | contents |
|---|---|---|
| `wrappers.dfy` | `Wrappers` | `Option` and `Result` |
| `text.dfy` | `Text` | character classes, `Split`/`Join` and their round trip |
| `numerals.dfy` | `Numerals` | decimal digits, `strconv.Atoi` on the int64 range, and its inverse `FormatInt` |
| `account_model.dfy` | `AccountModel` | `Account` and `Validate` |
| `email.dfy` | `Email` | the email pattern: its language as parse trees, and the split-based checker |
| `user_model.dfy` | `UserModel` | `User` and `Validate` |
| `db.dfy` | `Db` | the table state, the SQL operations, `Store` and `InitDB` |
| `http.dfy` | `Http` | status codes, responses, requests, the after-write error check |
| `account_routes.dfy` | `AccountRoutes` | `AccountCtx` and the account handlers |
| `user_routes.dfy` | `UserRoutes` | `UserCtx` and the user handlers |
| `general.dfy` | `General` | `MethodNotAllowed` |
| `router.dfy` | `Router` | the route table and request dispatch |

### Where the code and its tests disagree

The model follows the code in each case:

- An invalid user or account body is a 422. The tests expect 400 in some places.
- A body with a missing `accountType` decodes without error, so it also reaches `Validate` and is a 422.
- `PUT /accounts/{id}` is registered and reaches `UpdateAccount`.

## Model

| member | source | states |
|---|---|---|
| `Text.SplitJoin` | api/models/user.go:59 | splitting a join of separator-free parts at the separator gives back the parts (the basis of the split-based email check) |
| `Text.JoinAvoids` | api/models/user.go:59 | a character in none of the parts that is not the separator is not in their join |
| `Text.Split` | api/models/user.go:59 | a split gives at least one part, no part contains the separator, and joining the parts restores the input |
| `Numerals.DecimalValue` | api/routes/account.go:25 | the decimal rendering of a natural number reads back as that number |
| `Numerals.ValueDecimal` | api/routes/account.go:25 | a digit string without a leading zero is the rendering of its own value |
| `Numerals.Atoi` | api/routes/account.go:25 | a number `strconv.Atoi` accepts lies in the int64 range, and the text ends in a digit |
| `Numerals.AtoiFormatInt` | api/routes/account.go:25 | every int64 renders in canonical form and parses back to itself, negative values included |
| `Numerals.AtoiCanonical` | api/routes/user.go:25 | a canonical text that parses is the rendering of its value |
| `Numerals.AtoiRejectsStray` | api/routes/account.go:25-29 | a text with a non-digit anywhere except a leading sign is refused |
| `Numerals.AtoiExamples` | api/routes/account.go:25-29 | `""`, `"-"`, `"+"` and `"test"` are refused; `"1"`, `"-1"`, `"+1"` and `"007"` are accepted with their values |
| `AccountModel.ParseFrequencyNames` | api/models/account.go:65 | the type pattern accepts exactly the five frequency names |
| `AccountModel.DueDateIsDayOfMonth` | api/models/account.go:66 | the due-date pattern accepts exactly the decimal renderings of 1 to 31 (no leading zero) |
| `AccountModel.ValidateMeaning` | api/models/account.go:63-93 | `Validate` holds exactly when all hold: userID at least 1, the name is non-empty letters and spaces, the type is a frequency name, both payments are at most the full amount, and the due date is a day of the month |
| `AccountModel.ValidateIgnores` | api/models/account.go:63-93 | the id, the URL, and a common shift of the three amounts never change the verdict |
| `AccountModel.ValidateExamples` | api/models/account.go:68-90 | the validation vectors: userID 0, 1 and 2; names `" "`, `""`, `"Test 123"`, `"Test #Bad"`, `"Test \n"`; types `""`, `"bad"`; amounts over the full amount; due dates `""`, `"0"`, `"32"`, `"31"`, `"01"` |
| `Email.SegmentAvoids` | api/models/user.go:59 | a `[\w-]+` segment contains no other character |
| `Email.MatchesEmailSound` | api/models/user.go:59 | every text the checker accepts is the rendering of a well-formed parse of the pattern |
| `Email.MatchesEmailComplete` | api/models/user.go:59 | the rendering of every well-formed parse is accepted |
| `Email.CountryCodeRedundant` | api/models/user.go:59 | a domain passes the check exactly when it reads as labels, host label and extension: the optional two-letter country code never changes what the pattern matches |
| `Email.MatchesEmailCorrect` | api/models/user.go:59 | the checker accepts exactly the language of the email pattern |
| `Email.RenderAvoids` | api/models/user.go:59 | the rendering of a well-formed parse holds no character other than word characters, `-`, `.` and `@` |
| `Email.MatchesEmailAlphabet` | api/models/user.go:59 | every character of an accepted address is a word character, `-`, `.` or `@` |
| `Email.MatchesEmailAcceptsPlain` | api/models/user.go:59 | `ide.johnc@gmail.com` is accepted |
| `Email.MatchesEmailAcceptsCountry` | api/models/user.go:59 | an address ending in an extension and a two-letter country code is accepted |
| `Email.MatchesEmailRejectsNoLocalPart` | api/models/user.go:59 | `""`, `@gmail.com` and an address without `@` are refused |
| `Email.MatchesEmailRejectsSymbol` | api/models/user.go:59 | a `#` in the local part or in the domain is refused |
| `Email.MatchesEmailRejectsNoExtension` | api/models/user.go:59 | `ide.johnc@` and `ide.johnc@gmail` are refused |
| `UserModel.ValidateMeaning` | api/models/user.go:57-78 | `Validate` holds exactly when the three names are non-empty letters and spaces and the email is in the language of the pattern |
| `UserModel.ValidateIgnores` | api/models/user.go:57-78 | the id and the income never change the verdict |
| `UserModel.ValidateFirstNameExamples` | api/models/user.go:61-63 | first names `John` and `John ` pass; empty, digits and `#` fail |
| `UserModel.ValidateLastNameExamples` | api/models/user.go:65-67 | last name `Ide ` passes; empty, digits and `#` fail |
| `UserModel.ValidateFullNameExamples` | api/models/user.go:69-71 | a full name that does not join the other two (`Ide John `) passes; full names that are empty, hold digits or hold `#` fail |
| `UserModel.ValidateSample` | api/models/user.go:57-78 | the sample user with `ide.johnc@gmail.com` is valid |
| `UserModel.ValidateEmailExamples` | api/models/user.go:73-75 | the sample user with any of the seven bad addresses is invalid |
| `Db.RowsListed` | api/models/account.go:30-48 | the rows listed below an id bound are exactly the table's rows below it, in increasing id order |
| `Db.AllAccountRowsListed` | api/models/account.go:23-60 | a listing holds every stored account under its own id and nothing else, in increasing id order |
| `Db.AllUserRowsListed` | api/models/user.go:20-54 | a listing holds every stored user under its own id and nothing else, in increasing id order |
| `Db.SelectAccountFinds` | api/models/account.go:97-116 | NotFound exactly when the database answers and no row has the id; a found row carries the id; a database error is passed on |
| `Db.SelectUserFinds` | api/models/user.go:82-98 | NotFound exactly when the database answers and no row has the id; a found row carries the id; a database error is passed on |
| `Db.InsertAccountConsistent` | api/models/db.go:77-104 | an insert keeps the primary key and the `(user_id, name)` uniqueness |
| `Db.InsertUserConsistent` | api/models/db.go:52-75 | an insert keeps the primary key and email uniqueness |
| `Db.InsertAccountOutcome` | api/models/db.go:90 | an insert succeeds exactly when the database answers and no row has the same user and name; a clash is the UNIQUE error with the tables unchanged; success stores the record under a fresh id |
| `Db.InsertUserOutcome` | api/models/db.go:59 | an insert succeeds exactly when the database answers and no row has the email; a clash is the UNIQUE error with the tables unchanged; success stores the record under a fresh id |
| `Db.CreateAccountThenGet` | api/models/account.go:127-155 | a create succeeds exactly when the database answers and the user has no account of that name; a created account is the input under a fresh id and reads back as returned; a failed create is never NotFound, and changes nothing while the database stays broken |
| `Db.CreateUserThenGet` | api/models/user.go:109-133 | a create succeeds exactly when the database answers and the email is free; a created user is the input under a fresh id and reads back as returned; a failed create is never NotFound, and changes nothing while the database stays broken |
| `Db.AccountNameUniquePerUser` | api/models/db.go:90 | after a create, a second account of the same user and name is refused as UNIQUE with nothing changed, while the same name under another user that holds no such name is stored |
| `Db.EmailUnique` | api/models/db.go:59 | after a create, a second user with the same email is refused as UNIQUE with nothing changed |
| `Db.UpdateAccountOutcome` | api/models/db.go:15 | an update keeps the constraints, replaces only its own row, and is refused as UNIQUE exactly on a clash with another row |
| `Db.UpdateUserOutcome` | api/models/db.go:20 | an update keeps the constraints, replaces only its own row, and is refused as UNIQUE exactly on an email clash with another row |
| `Db.DeleteAccountOutcome` | api/models/db.go:16 | a delete keeps the constraints, removes the row and touches no other; an id no row has is reported as NotFound with nothing changed |
| `Db.DeleteUserOutcome` | api/models/db.go:21 | a delete keeps the constraints, removes the row and touches no other |
| `Db.Store.AllAccounts` | api/models/account.go:23-60 | the row loop returns exactly the listing of the accounts table, or the database error |
| `Db.Store.AllUsers` | api/models/user.go:20-54 | the row loop returns exactly the listing of the users table, or the database error |
| `Db.Store.GetAccount` | api/models/account.go:97-124 | the lookup returns what `SelectAccount` specifies |
| `Db.Store.GetUser` | api/models/user.go:82-106 | the lookup returns what `SelectUser` specifies |
| `Db.Store.CreateAccount` | api/models/account.go:127-155 | insert, then read back under the new id, with the result and the new state as `CreateAccountRow` specifies; the constraints are kept |
| `Db.Store.CreateUser` | api/models/user.go:109-133 | insert, then read back under the new id, with the result and the new state as `CreateUserRow` specifies; the constraints are kept |
| `Db.Store.UpdateAccount` | api/models/db.go:15 | the update as `UpdateAccountRow` specifies |
| `Db.Store.UpdateUser` | api/models/db.go:20 | the update as `UpdateUserRow` specifies |
| `Db.Store.DeleteAccount` | api/models/db.go:16 | the delete as `DeleteAccountRow` specifies |
| `Db.Store.DeleteUser` | api/models/db.go:21 | the delete as `DeleteUserRow` specifies |
| `Db.Schema.CreateTable` | api/models/db.go:52-104 | `CREATE TABLE IF NOT EXISTS`: the table is present afterwards unless the statement fails |
| `Db.InitDB` | api/models/db.go:30-50 | open, ping, create users, create accounts, with the outcome and the tables as `InitTables` specifies |
| `Db.InitOutcomes` | api/models/db.go:30-50 | an error exactly when open or ping fails, with no table created; a panic exactly when a table creation fails; a handle only with both tables present |
| `Db.InitUsersFirst` | api/models/db.go:40-47 | the users table is created before the accounts table |
| `Db.InitIdempotent` | api/models/db.go:52-104 | initialising an initialised database changes nothing |
| `Http.WriteFailureCases` | api/routes/account.go:109-117 | after a write: UNIQUE gives 409, an error that is not from sqlite gives 500, and no error or any other sqlite error goes on to the success response |
| `AccountRoutes.AccountCtxAccepts` | api/routes/account.go:21-35 | the middleware refuses with 400 exactly the segments `strconv.Atoi` refuses, and passes on every int64 |
| `AccountRoutes.AccountCtxExamples` | api/routes/account.go:24-32 | `test` and the empty segment give 400; `1` and `-1` pass |
| `AccountRoutes.AllAccountsResponds` | api/routes/account.go:38-51 | 500 exactly when the store fails; otherwise 200 JSON listing every stored account |
| `AccountRoutes.GetAccountResponds` | api/routes/account.go:54-79 | no id gives 422; NotFound gives 404; another error gives 500; a found row gives 200 JSON of the row stored under that id |
| `AccountRoutes.CreateAccountResponds` | api/routes/account.go:82-126 | 400 exactly when the body is unreadable or undecodable, 422 exactly when it is invalid, and neither touches the store; on a working store, 409 exactly when the user already has an account of that name, with nothing stored, and 200 otherwise; a 200 carries the body under a fresh id, which then reads back through `GetAccount`; a driver fault gives 500 and a lasting UNIQUE fault 409, both with nothing stored; the constraints are kept |
| `AccountRoutes.CreateAccountSqliteFallThrough` | api/routes/account.go:109-117 | an sqlite error other than UNIQUE gives 200 with JSON `null` |
| `AccountRoutes.CreateAccountMissingType` | api/routes/account.go:94-105 | a body without an account type decodes and is refused with 422, the store untouched |
| `AccountRoutes.UpdateAccountRefusesEarly` | api/routes/account.go:129-159 | no id gives 422, read or decode failure gives 400, invalid gives 422, and none of them touches the store |
| `AccountRoutes.UpdateAccountUpsert` | api/routes/account.go:161-196 | a missing id creates the record and gives 201 as empty plain text; an existing id is updated in place and gives 204 as empty plain text; a clash gives the 409 error response |
| `AccountRoutes.UpdateAccountUpsertIgnoresPathId` | api/routes/account.go:162-164 | the upsert stores the record under a fresh id, not under the id of the path |
| `AccountRoutes.UpdateAccountLookupFaultIgnored` | api/routes/account.go:162-163 | a database error on the lookup is not reported: the update's own error decides (500, 409, or 204 for another sqlite error although nothing was written), and nothing is written while the database stays broken |
| `AccountRoutes.AllAccounts` | api/routes/account.go:38-51 | the handler on a store answers as `AllAccountsResponse` |
| `AccountRoutes.GetAccount` | api/routes/account.go:54-79 | the handler on a store answers as `GetAccountResponse` |
| `AccountRoutes.CreateAccount` | api/routes/account.go:82-126 | the handler on a store answers and changes the store as `CreateAccountExchange`; on a store that keeps the constraints, they are kept |
| `AccountRoutes.UpdateAccount` | api/routes/account.go:129-198 | the handler on a store answers and changes the store as `UpdateAccountExchange`; on a store that keeps the constraints, they are kept |
| `UserRoutes.UserCtxAccepts` | api/routes/user.go:21-35 | the middleware refuses with 400 exactly the segments `strconv.Atoi` refuses, and passes on every int64 |
| `UserRoutes.UserCtxExamples` | api/routes/user.go:24-32 | `test` and the empty segment give 400; `1` and `-1` pass |
| `UserRoutes.AllUsersResponds` | api/routes/user.go:38-51 | 500 exactly when the store fails; otherwise 200 JSON listing every stored user |
| `UserRoutes.GetUserResponds` | api/routes/user.go:54-79 | no id gives 422; NotFound gives 404; another error gives 500; a found row gives 200 JSON of the row stored under that id |
| `UserRoutes.CreateUserResponds` | api/routes/user.go:82-126 | 400 exactly when the body is unreadable or undecodable, 422 exactly when it is invalid, and neither touches the store; on a working store, 409 exactly when the email is taken, with nothing stored, and 200 otherwise; a 200 carries the body under a fresh id, which then reads back through `GetUser`; a driver fault gives 500 and a lasting UNIQUE fault 409, both with nothing stored; the constraints are kept |
| `UserRoutes.CreateUserSqliteFallThrough` | api/routes/user.go:109-117 | an sqlite error other than UNIQUE gives 200 with JSON `null` |
| `UserRoutes.CreateUserInvalidEmail` | api/routes/user.go:100-105 | a user whose email fails the pattern is refused with 422, not 400, and the store is untouched |
| `UserRoutes.UpdateUserRefusesEarly` | api/routes/user.go:129-159 | no id gives 422, read or decode failure gives 400, invalid gives 422, and none of them touches the store |
| `UserRoutes.UpdateUserUpsert` | api/routes/user.go:161-195 | a missing id creates the user and gives 201 as empty plain text; an existing id is updated in place and gives 204 as empty plain text; an email clash gives the 409 error response |
| `UserRoutes.UpdateUserUpsertIgnoresPathId` | api/routes/user.go:162-164 | the upsert stores the user under a fresh id, not under the id of the path |
| `UserRoutes.UpdateUserLookupFaultIgnored` | api/routes/user.go:162-163 | a database error on the lookup is not reported: the update's own error decides (500, 409, or 204 for another sqlite error although nothing was written), and nothing is written while the database stays broken |
| `UserRoutes.AllUsers` | api/routes/user.go:38-51 | the handler on a store answers as `AllUsersResponse` |
| `UserRoutes.GetUser` | api/routes/user.go:54-79 | the handler on a store answers as `GetUserResponse` |
| `UserRoutes.CreateUser` | api/routes/user.go:82-126 | the handler on a store answers and changes the store as `CreateUserExchange`; on a store that keeps the constraints, they are kept |
| `UserRoutes.UpdateUser` | api/routes/user.go:129-197 | the handler on a store answers and changes the store as `UpdateUserExchange`; on a store that keeps the constraints, they are kept |
| `General.MethodNotAllowed` | api/routes/general.go:9-14 | whatever the request, 405 with the plain-text body `Method Not Allowed` and a newline |
| `Router.LookupTable` | api/routes/router.go:20-42 | exactly GET and POST are routed on each collection and GET, PUT and DELETE on each item, to the handler of the path's resource; only unrouted paths and paths with segments after an item id have no route |
| `Router.ServeItem` | api/routes/router.go:24-29 | on an item path, an id `strconv.Atoi` refuses gives 400 whatever the method, with the store untouched; an accepted id reaches the route with the parsed value |
| `Router.ServeCollection` | api/routes/router.go:20-22 | collection routes never run the id middleware: GET answers 200 or 500 with the store untouched, and POST is the create handler |
| `Router.ServeNotAllowed` | api/routes/router.go:44 | an unknown verb anywhere, or a method without a route on a known path, gives the 405 response with the store untouched |
| `Router.ServeNested` | api/routes/router.go:24-29 | segments after an item id still pass the id middleware: a refused id gives 400, an accepted one the 404 page, with the store untouched |
| `Router.ServeNestedExamples` | api/routes/router.go:24-29 | `GET /accounts/abc/x` gives 400 and `GET /accounts/1/x` gives the 404 page |
| `Router.ServeUnrouted` | api/routes/router.go:20-44 | a path no route matches gives the 404 page |
| `Router.ServePutExamples` | api/routes/router.go:20-27 | `PUT /accounts` gives 405; `PUT /accounts/1` reaches `UpdateAccount` with id 1 |
| `Router.ServePostItemExamples` | api/routes/router.go:24-25 | `POST /accounts/abc` gives 400 from the middleware; `POST /accounts/1` gives 405 |
| `Router.ServeDeleteExample` | api/routes/router.go:36-41 | `DELETE /users/7` is registered and reaches the delete handler with id 7 |
| `Router.ServeRequest` | api/routes/router.go:11-47 | serving a request on a store answers and changes the store as `Serve`; on a store that keeps the constraints, they are kept |

## Left out

- JSON encoding and decoding, and reading the request body: a body is given as its outcome (read failed, malformed, or the decoded record). A missing key decodes to the zero value, so such a record reaches `Validate`.
- The byte-level response body: a response is a status, a content type and a payload. The `X-Content-Type-Options` header that `http.Error` adds is not modelled.
- SQL text, the sqlite driver, `rows.Scan` and `LastInsertId`: the tables are maps. A database error is a fault recorded in the state; it makes every later call fail the same way, as a broken connection does.
- Ids: the model fixes a fresh id to a per-table counter (`nextAccountId`, `nextUserId`), while sqlite takes the largest rowid plus one; the two differ once the row with the highest id has been deleted. `AccountRoutes.UpdateAccountUpsert`, `UserRoutes.UpdateUserUpsert` and the two `...UpsertIgnoresPathId` lemmas name the counter's id, so they hold for sqlite only while no such delete has happened.
- Listing order: `SELECT * FROM accounts` and `SELECT * FROM users` have no `ORDER BY`. The increasing id order that `Db.RowsListed`, `Db.AllAccountRowsListed`, `Db.AllUserRowsListed` and the two `All...Responds` lemmas promise is the model's choice, not a promise of the code.
- `Db.CreateAccountThenGet`, `Db.CreateUserThenGet`: a database fault lasts for every later call, so the model cannot show a create whose insert succeeds and whose `LastInsertId` or read-back then fails. In the code that leaves the row stored while the handler answers 500, or 200 with `null` for another sqlite error. "A failed create changes nothing" holds only while the database stays broken.
- `AccountRoutes.UpdateAccountUpsert`, `UserRoutes.UpdateUserUpsert`: the create branch runs only after a lookup answered NotFound, which needs a working database, so with lasting faults the create there ends only in 201 or 409; the 500 and the sqlite fall-through arms of that branch (api/routes/account.go:165-173, api/routes/user.go:165-173) are not reached in the model.
- `AccountRoutes.UpdateAccountLookupFaultIgnored`, `UserRoutes.UpdateUserLookupFaultIgnored`: the store being left unchanged holds because the fault lasts; after a passing lookup error the code goes on to a working update, writes the row and answers 204.
- The concrete `DB` methods return JSON bytes while the `Store` interface returns records: the model follows the interface.
- `Db.UpdateAccountRow`, `Db.UpdateUserRow`, `Db.DeleteAccountRow`, `Db.DeleteUserRow`: the code behind these four `Store` methods is not part of this model. An update is given the semantics of a plain SQL `UPDATE ... WHERE id = ?`: a missing id changes nothing and is no error, and UNIQUE is checked against the other rows. An account delete that affects no row reports NotFound; a user delete whose id no row has is no error, as a plain `DELETE` would be.
- The `DeleteAccount` and `DeleteUser` handlers are not part of this model: `Router.Serve` hands a delete over with the parsed id.
- `Numerals.Atoi`: it does not tell apart the syntax and range errors of `strconv.Atoi`, because both handlers treat every error alike.
- Floating point: amounts are `real`. `Validate` only compares them.
- chi internals: a path arrives already split into a collection, an item with its raw segment, an item followed by further segments, or an unrouted path; which further segments follow is not kept, since no route below an item has any. Trailing slashes and URL decoding are not modelled. `middleware.Recoverer` and the request logger are left out.
- The request context is not modelled: the id the middleware stores is an `Option<int>` argument of the handlers.
- Logging, configuration and `main.go` are left out, and so is concurrent use of the store.
