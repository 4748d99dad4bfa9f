# Daily-diet meal store, modelled in Dafny

A model of the daily-diet API: a user registers and gets an opaque
`sessionId` cookie. With that cookie they then create, list, read, edit and
delete their own meal records, and ask for three counts: meals registered,
meals off the diet ("não") and meals on it ("sim").

The database is an immutable `Store` holding two sequences of rows in
storage order: `user` rows (`id`, `name`, `email`, `age`, `session_id`) and
`meals` rows (`id`, `user_id`, `snack`, `description`, `date`, `time`,
`isOnDiet`). Each route handler is a pure function. It takes the store, the
request's `sessionId` cookie (if any) and the parsed body, and returns a
`Result`. For a write that is the new store; for a read, the rows or counts.
An error (`Unauthorized | SessionNotFound | ValidationError | NotFound | EmptyUpdate`)
returns no store, so the store is unchanged by construction.

Modules, following the source:

- `JsString` (`js_string.dfy`): JavaScript's `length` (UTF-16 code units, which zod's `.length(n)` compares) and cookie truthiness.
- `Schema` (`schema.dfy`): rows, request bodies, errors, and the store invariant `Valid`. `Valid` says user and meal ids are unique, every meal's owner exists, every stored `date`/`time` has length 10/5, and every stored session is non-empty.
- `Session` (`session.dfy`): the `checkUsersExists` guard, first-match session resolution, and `POST /user`.
- `Queries` (`queries.dfy`): the knex queries on `meals`. These are the owner filter, `.first()` on `(id, user_id)`, the update and delete filtered by `id` alone, and the three counts.
- `Meals` (`meals.dfy`): the zod schemas and the six handlers of `src/routes/meals.ts`.
- `Invariants`, `Ownership`, `Registration` (`invariants.dfy`, `ownership.dfy`, `registration.dfy`): the properties.
- `Scenarios` (`scenarios.dfy`): the integration tests, stated for any store and any bodies.
- `Routes` (`routes.dfy`): the application's route table.

Modelling decisions:

- **Session resolution.** Every handler takes the first user row whose `session_id` equals the cookie. When no row matches, the source crashes on `user.id`. The model answers `SessionNotFound` instead; this replaces the crash on purpose.
- **Cookie presence.** The cookie counts as present when it is truthy in JavaScript. So an empty `sessionId` is treated like a missing one, both by the guard and by registration.
- **Request bodies.** Each body property is `Absent`, `Str(s)` or `NonString`. This keeps apart what `z.string()` rejects (anything but a string) and what `.optional()` additionally accepts (a missing value).
- **Fresh ids.** `randomUUID()` results are parameters. They are required not to occur in the store: a meal id, a user id, a non-empty session value. Meal-id uniqueness is part of `Valid`. Uniqueness is what makes the unscoped `where({ id })` in update and delete hit exactly the row that passed the `(id, user_id)` pre-check (`Ownership.UpdateRewritesCheckedRow`, `Ownership.DeleteRemovesCheckedRow`).
- **isOnDiet.** It is the two-valued `DietFlag = Sim | Nao`. The migration declares a boolean column, but the table types and every handler use the strings "sim" and "não". The model follows the code.
- **Update payloads.** Update hands possibly-`undefined` fields to the query builder, which leaves `undefined` values out of the `SET` list: an omitted field keeps its column (`Queries.ApplyPatch`). An update left with no value at all is refused by the query builder ("Empty .update() call detected!"). So `PUT /meals/:id` with a body that supplies no field fails once the ownership pre-check has passed; the model answers `EmptyUpdate` there (`Meals.UpdateMeal`), standing for that failure, and keeps the store.
- **Cookie lifetime.** `CookieMaxAge` is the constant as written, `1000 * 60 * 60 * 24 * 7` = 604800000. The source's comment calls it seven days. The unit the cookie plugin applies lies outside the model, so the model keeps the number and does not interpret it.
- **Session values are not unique.** Registration has no uniqueness check: registering twice with one cookie stores two rows with one `session_id`, and the meal handlers resolve to the first (`Registration.TwiceWithOneCookie`).

## Model

| member | source | states |
|---|---|---|
| Session.RequireSession | src/middlewares/check-users-exists.ts:7-13 | passes the cookie value on exactly when it is present and non-empty; otherwise Unauthorized |
| Session.FirstWithSession | src/routes/meals.ts:25 | returns the smallest index whose row carries the session; none exactly when no row carries it |
| Session.ResolveUser | src/routes/meals.ts:25-27 | the resolved user is a stored row carrying the session; SessionNotFound exactly when no row carries it |
| Session.Authenticate | src/routes/meals.ts:19-27 | guard then resolution: Unauthorized exactly when the cookie is missing or empty; for a non-empty cookie, SessionNotFound exactly when no row carries it; a success is the first stored row carrying the cookie |
| Session.SessionFor | src/routes/user.ts:17-20 | a non-empty cookie is kept as the session; only without one is the new value used; a non-empty new value gives a non-empty session |
| Session.ResolveIsFirstMatch | src/routes/meals.ts:25 | when row i is the first row carrying a session, resolution returns row i, whatever later rows carry it too |
| Session.AppendKeepsResolution | src/routes/user.ts:28-34 | inserting user rows never changes who an already-resolving session resolves to |
| Session.ParseUserBody | src/routes/user.ts:9-15 | accepted exactly when name, email and age are all strings; the profile carries those strings |
| Session.ProfileRoundTrip | src/routes/user.ts:9-15 | any profile's body parses back to that profile |
| Session.Register | src/routes/user.ts:8-37 | rejects a bad body with no insert; otherwise appends exactly one user row with the body's profile and the reused or new session, leaves meals alone, and sets a cookie exactly when none was present |
| Registration.NewSessionResolvesToNewUser | src/routes/user.ts:17-26 | without a cookie, the one cookie set is ("sessionId", new value, "/", 604800000), and that value resolves to the row just inserted |
| Registration.CookieIsReused | src/routes/user.ts:17-19 | with a cookie, no cookie is set and the row carries its value; an already-resolving session keeps its earlier user, an unmatched one now resolves to the new row |
| Registration.TwiceWithOneCookie | src/routes/user.ts:17-34 | two registrations with one unmatched cookie store two rows sharing it, and it resolves to the first |
| JsString.Utf16Length | src/routes/meals.ts:14-15 | the length zod compares counts each character once or, outside the Basic Multilingual Plane, twice: between the character count and twice it |
| JsString.BmpLengthIsSize | src/routes/meals.ts:14-15 | for text without astral characters, the length zod checks equals the character count |
| JsString.LengthCountsSurrogates | src/routes/meals.ts:14-15 | one astral character makes the checked length exceed the character count |
| Meals.ParseDiet | src/routes/meals.ts:16 | yields Sim exactly for "sim" and Nao exactly for "não" |
| Meals.DietRoundTrip | src/routes/meals.ts:16 | flag text and enum parsing are inverse in both directions |
| Meals.ParseMealBody | src/routes/meals.ts:11-23 | accepted exactly when all five fields are strings, date has length 10, time length 5, and isOnDiet is "sim" or "não"; the fields are the body's |
| Meals.MealBodyRoundTrip | src/routes/meals.ts:11-17 | every well-formed set of meal fields is accepted back unchanged from its body |
| Meals.ParseOptionalText | src/routes/meals.ts:105-108 | an optional string field accepts a missing value or a string of the required length, and yields it |
| Meals.ParseOptionalDiet | src/routes/meals.ts:109 | an optional flag accepts a missing value or one of the two accepted strings |
| Meals.ParsePatch | src/routes/meals.ts:104-115 | accepted exactly when every supplied field passes its rule; a field is in the patch exactly when the body supplied it, and then carries the body's value (the flag spelled as in the body); the patch is empty exactly when the body supplies nothing |
| Meals.CreateMeal | src/routes/meals.ts:10-40 | Unauthorized without a cookie; ValidationError for a bad body before the user is looked up; on success exactly one meal is appended, with the fresh id, the resolved user as owner and the body's fields, and all existing rows are kept |
| Meals.ListMeals | src/routes/meals.ts:43-57 | lists exactly the stored meals owned by the resolved user |
| Meals.GetMeal | src/routes/meals.ts:60-94 | a returned meal is stored, has the id and is owned by the caller; NotFound exactly when no such meal exists or the id is empty (the `!meals?.id` test); an authenticated owner asking for an existing meal with a non-empty id gets it |
| Meals.UpdateMeal | src/routes/meals.ts:97-147 | NotFound exactly when no meal has this id and owner; past that check, EmptyUpdate exactly when the body supplies no field; a valid body supplying some field, from the owner of an existing meal, is accepted; on success users stay, rows with other ids stay, rows with this id get the patch |
| Meals.DeleteMeal | src/routes/meals.ts:150-182 | NotFound exactly when no meal has this id and owner, and the owner's delete of an existing meal is accepted; on success users stay, fewer rows remain, and the remaining rows are exactly those with another id |
| Meals.DeleteShrinks | src/routes/meals.ts:178 | a delete that matches a row leaves fewer rows |
| Meals.MealMetrics | src/routes/meals.ts:185-229 | total is the length of the caller's list, onDiet its "sim" meals, offDiet its "não" meals, and total = onDiet + offDiet |
| Queries.OwnedBy | src/routes/meals.ts:50-52 | holds exactly the rows owned by the user |
| Queries.OwnedByAppend | src/routes/meals.ts:50-52 | the owner filter distributes over concatenation, so listed meals keep storage order |
| Queries.OwnedBySingle | src/routes/meals.ts:50-52 | one row is listed exactly when owned |
| Queries.FindOwned | src/routes/meals.ts:78-83 | finds the first row with this id and owner; none exactly when no row has both |
| Queries.FindOwnedUnique | db/migrations/20230507165044_create-meals.ts:5 | with unique ids, the row found is the one row with that id |
| Queries.ApplyPatch | src/routes/meals.ts:137-143 | supplied fields are written, omitted (`undefined`) fields keep their values, id and owner kept |
| Queries.UpdateWhereId | src/routes/meals.ts:137-143 | every row with the id is patched and every other row kept, whoever owns it |
| Queries.OwnedByAfterUpdate | src/routes/meals.ts:137-143 | the update keeps owners, so an owner's list after it is their list before it with the update applied |
| Queries.UpdateHitsOneRow | src/routes/meals.ts:137 | with unique ids the id-only update rewrites exactly one row |
| Queries.DeleteWhereId | src/routes/meals.ts:178 | the id-only delete never adds rows, and no row it keeps has the deleted id, whoever owned it; that every other row is kept is `Queries.DeleteKeepsExactlyOthers` |
| Queries.DeleteKeepsExactlyOthers | src/routes/meals.ts:178 | the id-only delete keeps exactly the rows with another id |
| Queries.DeleteAppend | src/routes/meals.ts:178 | the id-only delete distributes over concatenation |
| Queries.OthersLackId | db/migrations/20230507165044_create-meals.ts:5 | with unique ids no row other than row i carries row i's id |
| Queries.DeleteHitsOneRow | src/routes/meals.ts:178 | with unique ids the id-only delete cuts exactly one row out and keeps the rest in order |
| Queries.CountWhere | src/routes/meals.ts:197-221 | each of the three counts is at most the number of meal rows; their relations to the owner's list are the lemmas below |
| Queries.CountSplits | src/routes/meals.ts:197-221 | the unrestricted count is the sum of the "sim" and "não" counts |
| Queries.CountIsListLength | src/routes/meals.ts:197-203 | the unrestricted count equals the length of the owner's list |
| Queries.CountIsFlagCount | src/routes/meals.ts:205-221 | a flag-restricted count equals the number of the owner's listed meals with that flag |
| Invariants.RemoveKeepsUnique | db/migrations/20230507165044_create-meals.ts:5 | removing a row keeps meal ids unique |
| Invariants.RegisterPreservesValid | src/routes/user.ts:28-34 | registration with fresh ids keeps the store invariant |
| Invariants.CreatePreservesValid | src/routes/meals.ts:29-37 | creation with a fresh id keeps the store invariant |
| Invariants.UpdatePreservesValid | src/routes/meals.ts:137-143 | an accepted update keeps the store invariant |
| Invariants.DeletePreservesValid | src/routes/meals.ts:178 | an accepted delete keeps the store invariant |
| Ownership.NoSessionIsUnauthorized | src/routes/meals.ts:10 | without a non-empty cookie all six meal handlers answer Unauthorized |
| Ownership.UnknownSessionIsSessionNotFound | src/routes/meals.ts:46-48 | a present cookie matching no user gives SessionNotFound (after a valid body, where there is one) |
| Ownership.ForeignMealIsNotFound | src/routes/meals.ts:125-135 | another user's meal is NotFound to get, update and delete |
| Ownership.ListAfterCreate | src/routes/meals.ts:29-37 | after a create, the list is the old list followed by the new meal |
| Ownership.GetAfterCreate | src/routes/meals.ts:29-37 | after a create with a non-empty fresh id, asking for that id returns the row just inserted |
| Ownership.CreateIsolation | src/routes/meals.ts:29-37 | a create leaves every other owner's list unchanged |
| Ownership.UpdateKeepsOthers | src/routes/meals.ts:137-143 | an id-only update leaves the list of any owner holding no row with that id unchanged |
| Ownership.DeleteKeepsOthers | src/routes/meals.ts:178 | an id-only delete leaves the list of any owner holding no row with that id unchanged |
| Ownership.CheckedIdIsOwn | src/routes/meals.ts:166-171 | with unique ids, a row that passed the pre-check is the only row with its id |
| Ownership.UpdateIsolation | src/routes/meals.ts:125-143 | an update leaves every other owner's list unchanged |
| Ownership.DeleteIsolation | src/routes/meals.ts:166-178 | a delete leaves every other owner's list unchanged |
| Ownership.UpdateRewritesCheckedRow | src/routes/meals.ts:125-143 | with unique ids, an update changes exactly the pre-checked row |
| Ownership.FindAfterUpdate | src/routes/meals.ts:137-143 | the update never moves the first (id, owner) match |
| Ownership.ListAfterUpdate | src/routes/meals.ts:137-145 | after an accepted update, the caller's list is the old list, same order, with the rows of that id patched |
| Ownership.ReadAfterUpdate | src/routes/meals.ts:125-145 | after an update of a non-empty id, reading the meal shows the patched row, with every supplied field |
| Ownership.DeleteRemovesCheckedRow | src/routes/meals.ts:166-180 | with unique ids, a delete removes exactly the pre-checked row from the table and from the owner's list |
| Ownership.DeleteOnlyMealEmptiesList | src/routes/meals.ts:166-180 | deleting a user's only meal succeeds and leaves their list empty |
| Scenarios.FirstRegistration | test/meals-and-user.spec.ts:30-43 | a first registration sets exactly one cookie, whose value reaches the new user |
| Scenarios.ListTwoMeals | test/meals-and-user.spec.ts:104-148 | two creations from an empty list are listed in order; index 1 is the second, with its fields, and asking for its (non-empty) id returns it |
| Scenarios.EditOnlyMeal | test/meals-and-user.spec.ts:151-199 | editing a user's only meal with all five fields is accepted, and the list then holds just that row with the body's fields |
| Scenarios.DeleteOnlyMeal | test/meals-and-user.spec.ts:224-233 | deleting the only meal empties the list, and a second delete is NotFound |
| Scenarios.ListAfterCreates | src/routes/meals.ts:29-37 | creations in turn by a signed-in user with valid bodies and distinct fresh ids all succeed, and extend the caller's list by one row each, in order, each with the flag its body gave |
| Scenarios.FiveMealMetrics | test/meals-and-user.spec.ts:236-296 | a user with no meals who creates five valid meals with distinct fresh ids, marked não, sim, não, sim, sim, sees every creation succeed and then gets total 5, off 2, on 3 |
| Routes.Handle | src/app.ts:10-15 | a failed request keeps the store; meal routes without a cookie are Unauthorized; reads keep the store; metrics satisfy total = on + off; only registration sets a cookie; user rows are only ever appended |
| Routes.HandlePreservesValid | src/app.ts:10-15 | every request with fresh ids keeps the store invariant |

## Left out

- HTTP status codes and response JSON shapes: success answers (201 with an empty body for writes) are the `Created` response or a new store. The metrics are three naturals, not one-element arrays with Portuguese labels.
- The `z.string().uuid()` format check on `:id`: ids are opaque strings, so get, update and delete never report a ValidationError for a malformed id.
- A body that is not a JSON object at all, and unknown body properties (zod strips them): each body is modelled as its known properties only.
- `Queries.ApplyPatch`: the knex library is not part of this model. Its documented handling of an update is taken as given: `undefined` values are dropped from the `SET` list, and an update with nothing left to set is refused (`EmptyUpdate` in `Meals.UpdateMeal`).
- `JsString.Utf16Length`: a Dafny `char` is a Unicode scalar value, so a JSON string holding a lone surrogate (`"\uD800"`) cannot be represented. The length agrees with JavaScript's `length` on well-formed text only.
- `Session.Register`: the user table's own migration is not part of this model, so the uniqueness of user ids rests on the fresh-id parameter alone.
- Row order: SQL gives no order to a `SELECT` without `ORDER BY`. The model takes the scan order to be insertion order (as SQLite's rowid scan gives), and both the order of listed meals and first-match session resolution rest on that.
- The check-then-act race between the ownership pre-check and the write: each handler is one atomic step of a sequential model.
- Fastify wiring, the cookie plugin's serialization (including the unit of `maxAge`), environment loading, migrations as DDL, `created_at` timestamps, and the cascade delete. Users are never deleted, so the cascade is never observable.
- `randomUUID()`: its results are parameters required to be fresh; real UUID generation is not modelled.
- The error class `VerifyUserAndMealsIdExists` is not part of this model. Its throw is the `NotFound` error.
