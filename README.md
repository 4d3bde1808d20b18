# URL shortener: link table and user registry

A Dafny model of the request handlers of a small URL-shortening service
(Express + Sequelize). Two tables are modelled as classes whose methods
change them in place:

- the **link table** (`urls`), behind `POST /short`, `GET /urls`,
  `PUT /urls/:id`, `DELETE /urls/:id` and `GET /:short_url`
  (`UrlRoutes.LinkTable`, over the record and invariant of `UrlModel`);
- the **user registry**, behind `POST /auth/register` and `POST /auth/login`
  (`Auth.UserTable`).

Each handler's HTTP outcome is a `Common.Response` (200 `Ok`, 201 `Created`,
302 `Redirect`, 400 `BadRequest`, 401 `Unauthorized`, 404 `NotFound`) carrying
the JSON `message` the handler sends. Request-body fields are
`Option<string>`; yup's `string().required()` is `Common.Required` (present and
not empty).

Files:

- `common.dfy`: `Option`, `Response`, `Message`, `Required`, and `FindFirst`,
  the lookup that stands for `findOne`: the database answers some matching row,
  and the model takes the first in insertion order.
- `url_model.dfy`: the `Link` row of src/models/Url.js, the `ShortCode` type of
  `nanoid(6)`, the table invariant `TableValid` (positive auto-increment ids,
  increasing in insertion order; `short_url` unique over all rows, deleted ones
  included), the two `findOne` queries (`Find` with `ById`/`ByCode`, each
  demanding `deleted_at: null`), the `GET /urls` listing (`Visible`), the row
  changes the handlers make (`Retargeted`, `SoftDeleted`, `Clicked`) and the
  lemmas about them.
- `url_routes.dfy`: class `LinkTable` with a `rows: seq<Link>` field and the
  auto-increment counter; one method per handler. `POST /short` checks the
  `user_id` foreign key against the ids of an `Auth.UserTable`, and
  `OwnersRegistered` states that foreign key across the two tables.
- `auth.dfy`: `User`, the two yup schemas, `LoginResponse`, class `UserTable`
  with `Register` and the read-only `Login`, and the lemmas relating them.
- `scenario.dfy`: clients that walk through register, login, shorten, follow,
  update and delete using only the method contracts.

The inputs that come from outside the handlers are parameters: the caller id
the `authenticate` middleware attaches, the code `nanoid(6)` draws, the salt
`bcrypt.hash` draws, and the time `new Date()` reads. Foreign functions are
function-valued fields fixed when a table is created: `validateUrl` (a WHATWG
URL parse) for the link table; yup's `email()` check, `bcrypt.hash`,
`bcrypt.compare` and `jwt.sign` (the `AuthEnv` record) for the user table.
`BASE_URL` is a string field of the link table, also fixed at creation.
bcrypt's own promise, that a password matches every hash made from it,
appears only as the precondition `BcryptSound` of the lemmas that need it.

Four behaviours of the code that a reader of the routes might not expect,
all modelled as written:

- `PUT /urls/:id` checks the URL before looking the row up
  (src/routes/url.js:56-65), so an invalid URL yields 400 even for a missing or
  foreign id.
- A duplicate email answers 400 "Email already exists", like a schema failure
  (src/routes/auth.js:26-28), not a separate conflict status.
- There is no retry when `nanoid(6)` draws a code already in use: the insert
  fails on the unique index and the handler answers 400
  (src/routes/url.js:24-34).
- `POST /short` is mounted without `authenticate`, so as routed every link is
  stored with no owner (see Findings).

## Model

| member | source | states |
|---|---|---|
| `Common.FindFirst` | src/routes/url.js:60-62 | `findOne` answers a row its where clause selects (the model takes the first), or nothing exactly when no row is selected |
| `UrlModel.TableValid` | src/models/Url.js:5-47 | the invariant of the `urls` table whose rows are `Link` records: ids come from the auto-increment primary key (positive, increasing in insertion order, below the next id) and `short_url` is unique over all rows, soft-deleted ones included |
| `UrlModel.TableValidKeys` | src/models/Url.js:6-19 | in a valid table no two rows share an id or a short code, and the next id is not yet used |
| `UrlModel.OwnersKnownGrows` | src/models/Url.js:24-31 | a table whose owners all name known users keeps that property when the set of user ids grows |
| `UrlModel.ShortenKeepsOwnersKnown` | src/models/Url.js:24-31 | appending a row whose owner is null or a known user keeps every owner known |
| `UrlModel.RowChangesKeepOwnersKnown` | src/routes/url.js:67-106 | retargeting, soft-deleting and clicking a row keep every owner known |
| `UrlModel.Retargeted` | src/routes/url.js:67-69 | `PUT /urls/:id` changes only that row's original_url (to the new URL) and updated_at (to now); every other row and every other column stay |
| `UrlModel.SoftDeleted` | src/routes/url.js:87-88 | `DELETE /urls/:id` sets only that row's deleted_at, making it not live; no row is removed and no other column changes |
| `UrlModel.Clicked` | src/routes/url.js:106-107 | a redirect raises only that row's clicks, by one; every other row and column stay |
| `UrlModel.Find` | src/routes/url.js:99-101 | a lookup answers a live row that matches the query (by id and owner, or by code), and answers nothing exactly when no live row matches |
| `UrlModel.Visible` | src/routes/url.js:40-43 | `GET /urls` lists the projection of every live row owned by the caller, and nothing else |
| `UrlModel.FindLocates` | src/models/Url.js:6-19 | since ids and codes are unique, a query that selects row i makes `findOne` return row i |
| `UrlModel.FindUnaffected` | src/routes/url.js:99-101 | a change that keeps every row's id, owner, code and deletion mark leaves every lookup's answer as it was |
| `UrlModel.VisibleAppend` | src/routes/url.js:40-43 | a new row adds its view at the end of the listing exactly when it is live and owned by the caller |
| `UrlModel.ShortenEffect` | src/routes/url.js:24-29 | inserting a row with the next id and an unused code keeps the table valid, the code then resolves to the new row, and only its owner's listing grows, by that row |
| `UrlModel.OwnerlessLinkUnreachable` | src/routes/url.js:15-29 | a row stored with a null owner is in nobody's listing, and no caller's id lookup finds it |
| `UrlModel.DeletedCodeStaysTaken` | src/models/Url.js:15-19 | the code of a soft-deleted row is still in use for the unique index |
| `UrlModel.UpdateEffect` | src/routes/url.js:67-69 | changing a row's URL and update time keeps the table valid and every lookup's answer; the row's code now resolves to the new URL |
| `UrlModel.DeleteEffect` | src/routes/url.js:87-88 | soft-deleting a row keeps the row count and the table invariant, and afterwards neither the id lookup of any caller nor the code lookup finds it, nor does any listing show it |
| `UrlModel.ClickedCounts` | src/routes/url.js:106-107 | a redirect adds exactly one click to the table's total |
| `UrlModel.ResolveEffect` | src/routes/url.js:106-107 | a redirect keeps the table valid, adds one to that row's clicks and changes no lookup's answer |
| `UrlRoutes.OwnersRegistered` | src/models/Url.js:24-31 | the `user_id` foreign key across the two tables: every owned link names the id of a user in the registry |
| `UrlRoutes.LinkTable.Valid` | src/routes/url.js:17-24 | the link table invariant plus what `POST /short` guarantees of every row it writes: its URL passed `validateUrl` and its code has the shape of a `nanoid(6)` code |
| `UrlRoutes.LinkTable.constructor` | src/models/Url.js:5-47 | a new table is empty, valid, and hands out id 1 first |
| `UrlRoutes.LinkTable.Shorten` | src/routes/url.js:15-35 | 400 for a missing or empty URL, 400 "Invalid URL" for one validateUrl rejects, 400 for a code used by any row or an owner that is not the id of a user in the given `UserTable`, all with the table unchanged; otherwise one row is appended (that URL, that code, the caller as owner, or null when the caller id is missing or 0, 0 clicks, no deleted_at, the next id) and the answer is BASE_URL/code; the foreign key across the two tables is kept |
| `UrlRoutes.LinkTable.ShortenAsRouted` | src/routes/url.js:15-29 | the route as mounted: 400 for a missing or empty URL, 400 "Invalid URL", 400 for a code already in use, each with the table unchanged; otherwise the same row as Shorten with the owner always null; the foreign key is kept |
| `UrlRoutes.LinkTable.List` | src/routes/url.js:38-48 | answers the caller's listing and changes nothing |
| `UrlRoutes.LinkTable.Update` | src/routes/url.js:51-75 | 400 for a missing, empty or invalid URL whatever the id; 404 when no live row of the caller has that id; otherwise only that row's URL and update time change; every other row, and the table on every failure, stay as they were; no owner changes |
| `UrlRoutes.LinkTable.Delete` | src/routes/url.js:78-94 | 404 with the table unchanged when no live row of the caller has that id; otherwise only that row gets deleted_at, and no row is removed; no owner changes |
| `UrlRoutes.LinkTable.Resolve` | src/routes/url.js:97-113 | 404 with the table unchanged for an unknown or soft-deleted code; otherwise redirect to the row's URL, with only that row's clicks raised by one; no owner changes |
| `Auth.RegisterSchema` | src/routes/auth.js:8-12 | `registerSchema`: username present and non-empty, email present and well-formed, password of at least 6 characters; a body it accepts also passes `loginSchema` |
| `Auth.LoginSchema` | src/routes/auth.js:14-17 | `loginSchema`: email present and well-formed, password present and non-empty |
| `Auth.UsersValid` | src/routes/auth.js:25-31 | the invariant of the users table as Register keeps it: auto-increment ids, unique emails, non-empty usernames, well-formed emails, and a bcrypt hash where the password would be |
| `Auth.UsersValidKeys` | src/routes/auth.js:25-31 | in a valid users table no two users share an id or an email, and the next id is not yet used |
| `Auth.RegisterGrowsUserIds` | src/routes/auth.js:31 | inserting a user adds exactly that user's id to the ids a link may refer to, and removes none |
| `Auth.FindByEmail` | src/routes/auth.js:25 | the email lookup answers the first user with that email, and nothing exactly when no user has it |
| `Auth.LoginResponse` | src/routes/auth.js:40-55 | 400 for a body `loginSchema` rejects; 401 "Invalid credentials" for an unknown email; 200 only with a token signed over the id of a user with that email whose stored hash bcrypt accepts for the password |
| `Auth.LoginDecides` | src/routes/auth.js:45-51 | with unique emails, a well-formed login for a stored email answers a token for exactly that user when bcrypt accepts the password, and 401 when it does not |
| `Auth.RegisterKeepsValid` | src/routes/auth.js:22-31 | the row a successful registration appends keeps ids increasing and emails unique, and holds a hash, a non-empty username and a well-formed email |
| `Auth.RegisterThenLogin` | src/routes/auth.js:30-51 | logging in right after registering, with the same email and password, answers a token for the new user's id |
| `Auth.RegisterKeepsOtherLogins` | src/routes/auth.js:25-31 | a registration leaves the login answer for every other email unchanged |
| `Auth.UserTable.constructor` | src/routes/auth.js:25-31 | a new users table is empty, valid, and hands out id 1 first |
| `Auth.UserTable.Register` | src/routes/auth.js:20-37 | 400 for a missing or empty username, a missing or malformed email, or a password under 6 characters; 400 "Email already exists" for a stored email; both leave the table unchanged; otherwise it appends the user with `hash(password, salt)` in place of the password and answers 201 with a token signed over the new id; the set of user ids grows by the new id on success and is unchanged otherwise |
| `Auth.UserTable.Login` | src/routes/auth.js:40-55 | answers LoginResponse and, having no modifies clause, changes nothing |
| `Scenario.SignUpThenLogIn` | src/routes/auth.js:20-55 | a registration followed by a login with the same credentials succeeds, and a second registration with the same email answers 400 |
| `Scenario.OwnersStayRegistered` | src/models/Url.js:24-31 | through a registration, a shorten, an update, a redirect and a delete, both tables stay valid and every link's owner stays a registered user |

## Findings

| source | as written | input that shows it | evidently intended | confidence | as-written member | corrected member |
|---|---|---|---|---|---|---|
| src/routes/url.js:15-28 | `POST /short` is mounted without the `authenticate` middleware, so `req.user` is never set and `user_id` is always stored as null | a logged-in user sends `POST /short` with a bearer token, then `GET /urls`, `PUT /urls/1` or `DELETE /urls/1`: the list is empty and both changes answer 404 | optional authentication: a request that carries a valid token stores the caller as owner, as `req.user?.id` anticipates | medium, not executed | `UrlRoutes.LinkTable.ShortenAsRouted`, `UrlModel.OwnerlessLinkUnreachable` | `UrlRoutes.LinkTable.Shorten`, `UrlModel.ShortenEffect` |

`Scenario.OwnerlessLinkLifecycle` walks through the as-written case and
`Scenario.OwnedLinkLifecycle` through the corrected one.

## Left out

- UrlModel.Visible: its contract states which views are listed (both directions), not their order; `UrlModel.VisibleAppend` states that new rows are listed last. The database gives no order without `ORDER BY`; the model uses insertion order.
- src/middleware/auth.js is not part of this model: token verification, expiry and its 401 answers are left out; the caller id it attaches is an input.
- src/app.js: helmet, the rate limiter, the OpenAPI description, route mounting other than the missing `authenticate` on `POST /short`, `sequelize.sync({ force: true })` (which empties both tables at start-up) and `app.listen`.
- `validateUrl` is taken as a given predicate; WHATWG URL parsing is not re-specified.
- `bcrypt.hash`, `bcrypt.compare`, `jwt.sign` and yup's `email()` are given functions; the token's expiry ("1h") and the timing of the comparison are not modelled.
- The randomness of `nanoid(6)` and of the bcrypt salt: both are inputs.
- Timestamps are inputs; no relation between successive times is assumed.
- Database failures other than the insert failures modelled for `POST /short` (unique code, unknown owner) are left out: the 500 answers of `GET /urls`, `DELETE` and the redirect, and a failed `User.create`. src/models/User.js is not part of this model, so unique indexes it may declare are not modelled; email uniqueness is the handler's check.
- Whether the database enforces the `user_id` foreign key depends on its dialect and configuration; src/config/database.js is not part of this model. The model assumes it is enforced: `POST /short` refuses an owner that is not in the user table, and `OwnersRegistered` states the key across both tables.
- String comparison: the `where` clauses and the unique index on `short_url` are modelled as exact string equality (`UrlModel.Matches`, `UrlModel.CodeInUse`, `Auth.FindByEmail`). A case-insensitive collation, such as MySQL's default, would treat codes or emails that differ only in letter case as equal; the database configuration is not part of this model.
- Integer width: `id`, `clicks` and `user_id` are `DataTypes.INTEGER` (src/models/Url.js:7, 21, 25), 32-bit in most dialects. The model's `int` and `nat` are unbounded, so the database's out-of-range error for an id or a click count past the column's maximum is not modelled.
- String length: `original_url` and `short_url` are `DataTypes.STRING` (src/models/Url.js:12, 16), created as VARCHAR(255). On a dialect that enforces the length, a URL over 255 characters makes `Url.create` (src/routes/url.js:25) or `url.save()` (src/routes/url.js:69) fail and the handler answer 400; `UrlRoutes.LinkTable.Shorten` and `UrlRoutes.LinkTable.Update` accept any length.
- Row order of `findOne`: Sequelize sends `LIMIT 1` without `ORDER BY`, so the database may return any matching row; `Common.FindFirst` takes the first. Every `findOne` of the core filters on a unique key (id, short code, email), so in a valid table at most one row matches and the choice is not observable (`UrlModel.FindLocates`).
- A failed insert does not advance the id counter in the model; some databases consume a sequence value anyway. Ids stay fresh and increasing either way.
- yup's type coercion of non-string body fields, and the texts of its error messages (all reduced to `SchemaError`); password length is counted in characters, not UTF-16 code units.
- Sequelize's coercion of `req.params.id` from a string (a non-numeric id) is left out; ids are integers.
- Concurrency: the read-modify-write of `clicks` and the check-then-insert of a new email are modelled as sequential steps.
