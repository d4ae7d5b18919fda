# Daily Diet: a Dafny model of the API and its two meal forms

Daily Diet is a small meal log. A Fastify backend keeps two tables:
`users` (name, email, bcrypt hash of the password, an optional `session_id`)
and `meals` (name, description, `HH:MM` hour, `DD/MM/YYYY` date, on-diet
flag, owner). Clients are identified by a `sessionId` cookie. The React
frontend has a new-meal form on the dashboard page and an edit form on the
meal-details page. Both forms turn the browser's `YYYY-MM-DD` date into
`DD/MM/YYYY`, refuse a moment later than now, and post JSON to the backend.

This project models:

- the session middleware `checkSessionIdExists` as a pure lookup from the
  cookie to the identity of the first row holding that exact token
  (`session.dfy`);
- the four user routes as methods of a `UsersTable` class over a sequence of
  rows (`users.dfy`);
- the four meal routes as methods of a `MealsTable` class (`meals.dfy`).
  Each meal route takes the identity the middleware attached to the request;
- the three kinds of knex statement the routes run — first match, filter and
  update-where — as generic functions with their algebra (`store.dfy`);
- the two regular expressions of the meal schema, plus numeric readings of
  them (`formats.dfy`);
- the JavaScript string and number built-ins the forms rely on: `split`,
  `Number`, `String`, `padStart` and UTF-16 length (`jstext.dfy`);
- the date reading, date formatting, future guard and error messages the two
  forms share (`mealform.dfy`);
- the component state of each form as a class: `dashboard.dfy` and
  `mealdetails.dfy`;
- an end-to-end client session (`scenario.dfy`).

The source's external pieces are modelled as follows:

- bcrypt's `hash` and `compare` and zod's email check are arbitrary functions
  in `Users.Deps`. The only thing assumed of them is that a password matches
  its own hash (`Users.Sound`).
- `randomUUID` values and the clock are parameters.
- A knex write that throws is a boolean `fault` parameter of the create,
  update, register, login and logout routes. Their `catch` turns it into 500.
  The delete route has no `try`/`catch` around its statement
  (backend/src/routes/meals.ts:101-104), so `DeleteMeal` has no `fault`
  parameter.
- How a fetch ends is an `Outcome` parameter: ok, failed with or without a
  `message`, a body that is not JSON, or a network failure.

In four places the code behaves differently from what its names, messages
and data model suggest; the model follows the code:

- **Empty texts.** Meal names and descriptions may be empty: the schema is a
  bare `z.string()` (backend/src/routes/meals.ts:26-27).
- **Validation status.** A schema failure answers 500, not a 4xx: the zod
  error lands in the route's `catch`.
- **Order of checks.** The `/new-meal` handler validates the body before it
  looks at `req.user`; the `/update/:id` handler looks at the user first. In
  the running program the session middleware has already answered 401
  before either handler runs when no user resolves, so the handlers' own
  `!user` branches are unreachable. The model takes the user as a parameter
  of each meal method and keeps each handler's own order; it does not
  compose the middleware with the meal handlers.
- **Session tokens.** Tokens are not unique. Register and login store the
  caller's existing cookie rather than a fresh token, so two rows can share
  one (see `Users.ForeignCookieLogin`).

## Model

| member | source | states |
|---|---|---|
| Values.FieldPut | backend/src/routes/meals.ts:26-36 | a field read as a string or a boolean after it is written gives back the value written when it is of that kind, and nothing otherwise |
| Values.FieldFrame | backend/src/routes/meals.ts:26-36 | writing one key of a body leaves the reading of every other key as it was |
| Values.FieldKinds | backend/src/routes/meals.ts:26-36 | no field reads both as a string and as a boolean, and a body that is not an object has no fields |
| JsText.Decimal | frontend/src/pages/Dashboard.tsx:118-120 | `String(n)` of a non-negative integer is a non-empty digit string without a leading zero that reads back as `n`, one character long exactly when `n < 10` |
| JsText.DecimalOfValue | frontend/src/pages/Dashboard.tsx:104 | `String(Number(s))` gives back a digit string `s` that has no leading zero |
| JsText.ValuePositive | frontend/src/pages/Dashboard.tsx:104 | a digit string with a non-zero first digit reads as a positive number |
| JsText.Split | frontend/src/pages/Dashboard.tsx:104 | `split` always gives at least one piece |
| JsText.SplitJoin | frontend/src/pages/Dashboard.tsx:104 | joining the pieces of `split` with the separator gives back the original string |
| JsText.SplitPieces | frontend/src/pages/Dashboard.tsx:104 | no piece of `split` contains the separator |
| JsText.SplitWithout | frontend/src/pages/Dashboard.tsx:104 | a string without the separator splits into itself alone |
| JsText.SplitAt | frontend/src/pages/Dashboard.tsx:104 | splitting `a + sep + b`, where `a` has no separator, gives `a` followed by the pieces of `b` |
| JsText.NumberOfDecimal | frontend/src/pages/Dashboard.tsx:104 | `Number` reads back the text `String` writes for a non-negative integer, `String` of that number is the same text again, and `Number("")` is 0 |
| JsText.SlotText | frontend/src/pages/Dashboard.tsx:118-120 | `String(x)` of a destructured slot is never empty |
| JsText.PadStart | frontend/src/pages/Dashboard.tsx:118-120 | `padStart(width, fill)` has length `max(|s|, width)` |
| JsText.PadStartShape | frontend/src/pages/Dashboard.tsx:118-120 | `padStart` ends with the original string, and every character before it is the fill |
| JsText.Utf16Length | backend/src/routes/users.ts:25 | the length zod measures is between the number of code points and twice that, and equals it when every code point is in the Basic Multilingual Plane |
| Formats.HourDigitsIff | backend/src/routes/meals.ts:29 | the hour alternative `[01]\d|2[0-3]` accepts exactly two digits reading 00..23 |
| Formats.MinuteDigitsIff | backend/src/routes/meals.ts:29 | the minute part `[0-5]\d` accepts exactly two digits reading 00..59 |
| Formats.DayDigitsIff | backend/src/routes/meals.ts:33 | the day alternative `0[1-9]|[12]\d|3[01]` accepts exactly two digits reading 01..31 |
| Formats.MonthDigitsIff | backend/src/routes/meals.ts:33 | the month alternative `0[1-9]|1[0-2]` accepts exactly two digits reading 01..12 |
| Formats.ValidHourIff | backend/src/routes/meals.ts:29 | `meal_hour` matches the pattern if and only if it is five characters `HH:MM`, with HH in 0..23 and MM in 0..59 |
| Formats.ValidDateIff | backend/src/routes/meals.ts:33 | `meal_date` matches if and only if it is `DD/MM/YYYY`, with DD in 1..31, MM in 1..12 and exactly four year digits |
| Formats.HourExamples | backend/src/routes/meals.ts:134 | `25:00`, `24:00`, `9:30` and `12:60` are refused; `00:00`, `12:30` and `23:59` are accepted |
| Formats.DateExamples | backend/src/routes/meals.ts:138 | there is no calendar check (`31/02/2025` is accepted); day 32, day 00, month 13, one-digit fields, a two-digit year and ISO order are refused |
| Formats.Pair | backend/src/routes/meals.ts:29 | two digits read as a number below 100, the value of the two-character numeral |
| Store.FirstMatch | backend/src/middlewares/check-session-id-exists.ts:29 | `.where(...).first()` gives the position of a matching row with no match before it, or none exactly when no row matches |
| Store.Where | backend/src/routes/meals.ts:83 | a filtering query returns only rows of the table that pass, returns every row that passes, is no longer than the table, and is as long exactly when every row passes |
| Store.UpdateWhere | backend/src/routes/meals.ts:150-159 | an update keeps the number of rows and applies the row rewrite at every position |
| Store.WhereSnoc | backend/src/routes/meals.ts:51-59 | appending a row extends a query's result by that row when it passes and by nothing otherwise |
| Store.WhereWhere | backend/src/routes/meals.ts:101-104 | filtering by a condition and then by a stronger one is filtering by the stronger one |
| Store.WhereUpdateWhere | backend/src/routes/meals.ts:150-152 | rows the update leaves alone, selected by a condition the update neither creates nor destroys, come out unchanged |
| Store.WhereKeepsAll | backend/src/routes/meals.ts:106 | a filter every row passes returns the table itself |
| Store.FirstMatchAppend | backend/src/routes/users.ts:88 | a matching row appended after rows that do not match is the first match |
| Session.CheckSessionIdExists | backend/src/middlewares/check-session-id-exists.ts:19-38 | 401 exactly when no identity is attached; a missing or empty cookie, or one no row holds, attaches nothing; an attached identity is the id, name and email of the first row whose `session_id` equals the cookie |
| Session.EmptyCookieRejected | backend/src/middlewares/check-session-id-exists.ts:19-26 | a request without the cookie, or with an empty one, is refused with 401 and no identity, even when some row's `session_id` is the empty string |
| Session.FirstHolderWins | backend/src/middlewares/check-session-id-exists.ts:29 | when several rows hold the token, it resolves to the first of them, whatever the later rows hold |
| Session.ResolveAgrees | backend/src/middlewares/check-session-id-exists.ts:29 | resolution depends only on which rows hold the token and on their identities: two tables that agree on these resolve alike |
| Users.ParseRegistration | backend/src/routes/users.ts:17-26 | a registration body passes if and only if the name matches `^[a-zA-Z0-9_-]+$`, the email passes the email check and the password has at least 6 UTF-16 units; it yields those three strings |
| Users.ParseLogin | backend/src/routes/users.ts:80-83 | a login body passes if and only if the email passes the email check and the password is any string; no length rule applies |
| Users.LoginTarget | backend/src/routes/users.ts:88-99 | a login authenticates only the first row with the email, and only when the password matches that row's stored hash; it authenticates nobody exactly when the first row with the email (if any) does not match |
| Users.UsersTable.constructor | backend/src/routes/users.ts:10 | the users table starts empty |
| Users.UsersTable.Register | backend/src/routes/users.ts:16-77 | a validation failure is 500 and inserts nothing; a taken email is 409 whatever the name, checked before the name (409); otherwise it sets the cookie only when none was presented, inserts nothing on a store fault (500), and on success (201) appends exactly one row holding `Hash(password)` and the presented cookie or the fresh token |
| Users.UsersTable.Login | backend/src/routes/users.ts:79-140 | a validation failure is 500; an unknown email or a wrong password is 401 with no row changed; a success stores the chosen token on the user's rows (overwriting what they held), sets the cookie and replies with only id, name and email; without a fault it logs in exactly when `LoginTarget` authenticates a row, and replies with that row's identity |
| Users.UsersTable.Dashboard | backend/src/routes/users.ts:142-159 | 200 with the resolved identity exactly when the session resolves, otherwise 401 |
| Users.UsersTable.Logout | backend/src/routes/users.ts:161-183 | a caller whose session does not resolve gets 401 with nothing changed; otherwise the cookie is cleared and, unless the store faults (500), every row holding the caller's token loses it (200) |
| Users.UsersTable.StoreSession | backend/src/routes/users.ts:114-116 | the update statement, row by row, leaves the table equal to the login's `SetSession` |
| Users.UsersTable.DropSession | backend/src/routes/users.ts:173-175 | the update statement, row by row, leaves the table equal to the logout's `ClearSession` |
| Users.RegisterThenLogin | backend/src/routes/users.ts:64-70 | logging in with the credentials just registered authenticates the new row |
| Users.RegisteredEmailIsTaken | backend/src/routes/users.ts:33-37 | after a registration succeeds, its email is taken |
| Users.LogoutRevokes | backend/src/routes/users.ts:173-175 | after logout, the caller's token resolves to nobody |
| Users.LogoutSparesOtherTokens | backend/src/routes/users.ts:173-175 | logout leaves every other token resolving as before |
| Users.LoginResolvesToUser | backend/src/routes/users.ts:114-116 | a login storing a token no row held makes that token resolve to the user who logged in |
| Users.ForeignCookieLogin | backend/src/routes/users.ts:102 | a login from a browser carrying another user's token gives that token to the login's user as well, and the token keeps resolving to the earlier row |
| Users.LoginTouchesOnlySession | backend/src/routes/users.ts:114-116 | login changes only the `session_id` of the rows with the user's id, and leaves every other row as it was |
| Users.UserNameExamples | backend/src/routes/users.ts:21 | `alice`, `a_b-9` and `-` are valid names; the empty name, a name with a space and one with `!` are not |
| Meals.ParseMeal | backend/src/routes/meals.ts:25-37 | a meal body passes if and only if name and description are strings (empty allowed), the hour and date match their patterns and `is_on_diet` is a JSON boolean; it yields those five values |
| Meals.MealBodyFields | backend/src/routes/meals.ts:41-42 | each field of a five-field meal body reads back as it was put in; the flag reads as a boolean exactly when it is one |
| Meals.MealBodyParses | backend/src/routes/meals.ts:130-142 | such a body passes the schema exactly when its hour and date match and its flag is a boolean, and then yields those fields |
| Meals.MealsTable.constructor | backend/src/routes/meals.ts:13 | the meals table starts empty |
| Meals.MealsTable.NewMeal | backend/src/routes/meals.ts:24-70 | a schema failure is 500 and changes nothing; a missing user is 401 and a store fault 500, both changing nothing; a success (201) appends exactly one row with the fresh id, the parsed fields and the user's id |
| Meals.MealsTable.ListMeals | backend/src/routes/meals.ts:77-86 | 401 without a user; otherwise 200 with exactly the rows whose `user_id` is the user's, in storage order (`MealsOf`, the filtering query) |
| Meals.MealsTable.DeleteMeal | backend/src/routes/meals.ts:93-115 | 401 without a user; 404 exactly when no row matches both the id and the user, and then the table is unchanged; otherwise 200, with only the matching rows removed |
| Meals.MealsTable.UpdateMeal | backend/src/routes/meals.ts:122-170 | 401 without a user (checked before the body); a schema failure or a store fault is 500 and changes nothing; otherwise 200, even when no row matched, with the matching rows rewritten |
| Meals.MealsTable.DeleteWhere | backend/src/routes/meals.ts:101-104 | the delete statement, row by row, leaves the rows that do not match, in order, and returns how many were removed |
| Meals.MealsTable.RewriteWhere | backend/src/routes/meals.ts:150-159 | the update statement, row by row, leaves the table equal to `UpdateOwned` |
| Meals.DeleteOwnedSnoc | backend/src/routes/meals.ts:101-104 | growing the table by a row grows what a delete keeps by that row, unless the delete targets it |
| Meals.CreateIsolation | backend/src/routes/meals.ts:51-59 | a create for user U leaves every other user's rows as they were |
| Meals.DeleteIsolation | backend/src/routes/meals.ts:101-104 | a delete by U leaves every other user's rows as they were |
| Meals.UpdateIsolation | backend/src/routes/meals.ts:150-152 | an update by U leaves every other user's rows as they were |
| Meals.CreateThenList | backend/src/routes/meals.ts:83 | a created meal is listed for its owner after the meals already listed, and for no other user |
| Meals.CreateThenDelete | backend/src/routes/meals.ts:101-104 | deleting a just-created meal, under an id its owner held no other row with, restores the table |
| Meals.UpdateKeepsKeys | backend/src/routes/meals.ts:150-159 | the update keeps every row's id, owner and creation time, rewrites the five columns only on the matching row and leaves the other rows alone |
| Meals.ExampleDate | backend/src/routes/meals.ts:33 | `01/01/2024` matches the date pattern |
| Meals.EmptyTextsAccepted | backend/src/routes/meals.ts:26-27 | the schema accepts an empty name and an empty description |
| Meals.BadHoursRefused | backend/src/routes/meals.ts:29 | bodies with hour `25:00` or `9:30` are refused |
| Meals.BadShapesRefused | backend/src/routes/meals.ts:36 | a string `"true"` as the flag, and a body without a description, are refused |
| MealForm.Numbers | frontend/src/pages/Dashboard.tsx:104 | `.map(Number)` has one number per piece, `Number` of that piece |
| MealForm.FormatDate | frontend/src/pages/Dashboard.tsx:118-120 | the formatted date is a template string of at least six characters, so it is never empty |
| MealForm.PaddedPair | frontend/src/pages/Dashboard.tsx:118-119 | a day or month below 100, stringified and padded, is two digits that read back as it |
| MealForm.FourDigitYear | frontend/src/pages/Dashboard.tsx:120 | a year of 1000..9999 stringifies to four digits |
| MealForm.JoinedDate | frontend/src/pages/Dashboard.tsx:118-120 | a valid day pair, a valid month pair and four year digits joined by `/` match the backend's date pattern |
| MealForm.FormatIsValidDate | frontend/src/pages/Dashboard.tsx:118-120 | for day 1..31, month 1..12 and a four-digit year, the formatted date matches the backend's date pattern |
| MealForm.ReadDateInput | frontend/src/pages/Dashboard.tsx:104 | a picked `YYYY-MM-DD` value destructures into the three numerals' values |
| MealForm.ReadTimeInput | frontend/src/pages/Dashboard.tsx:105 | a picked `HH:MM` value destructures into the two numerals' values |
| MealForm.PadTwoDigits | frontend/src/pages/Dashboard.tsx:118-119 | a two-digit numeral, stringified and padded, gives back the same two digits |
| MealForm.ReorderDate | frontend/src/pages/Dashboard.tsx:118-120 | a picked date whose year has no leading zero is sent as `DD/MM/YYYY`, the input's own day, month and year numerals reordered |
| MealForm.TwoDigitValue | frontend/src/pages/Dashboard.tsx:104 | a two-digit numeral's value is its digit pair's value |
| MealForm.PickedDateIsValid | frontend/src/pages/Dashboard.tsx:118-120 | a picked date with day 1..31, month 1..12 and a year without a leading zero is reordered and matches the backend's date pattern |
| MealForm.YearNotPadded | frontend/src/pages/Dashboard.tsx:120 | the year is not padded: a picked year below 1000 loses its leading zeros, and the text no longer matches the backend's pattern |
| MealForm.ShortYear | frontend/src/pages/Dashboard.tsx:120 | four digits led by a zero stringify to at most three |
| MealForm.UntouchedDate | frontend/src/pages/MealDetails.tsx:83 | an empty date input reads as year 0 with the month and day undefined, so it formats as `undefined/undefined/0` |
| MealForm.PickedMoment | frontend/src/pages/Dashboard.tsx:107-109 | for a picked date and time, the guard fires if and only if their numeric components are later than now |
| MealForm.UntouchedDateNotFuture | frontend/src/pages/MealDetails.tsx:86-88 | an empty date input is an Invalid Date, which the guard never takes for the future |
| MealForm.UntouchedHourNotFuture | frontend/src/pages/MealDetails.tsx:84-88 | an empty time input makes an Invalid Date, which the guard never takes for the future |
| MealForm.LeadingPartsBound | frontend/src/pages/Dashboard.tsx:104-105 | whatever the inputs hold, the year and the hours are bound; the month, day and minutes are bound exactly when the input has that many pieces |
| MealForm.UntouchedInputsInvalid | frontend/src/pages/Dashboard.tsx:107 | an empty date input or an empty time input makes the selected moment invalid whatever the other input holds |
| MealForm.FailureAlwaysShown | frontend/src/pages/Dashboard.tsx:140-152 | a submit that does not succeed always leaves a non-empty message: the backend's own message, the default error or the connection message |
| MealForm.LaterIsStrictTotal | frontend/src/pages/Dashboard.tsx:109 | the comparison of moments is irreflexive, asymmetric, transitive and total, so the guard refuses exactly the moments after now |
| Dashboard.NewMealBodyFields | frontend/src/pages/Dashboard.tsx:127-133 | the POST body carries name, description, hour and flag as entered (the hour exactly as typed) and the date reformatted |
| Dashboard.NewMealBodyAccepted | frontend/src/pages/Dashboard.tsx:118-133 | a picked date with a four-digit year and a valid hour make a body the backend's schema accepts, with the date reordered and the hour as typed |
| Dashboard.NewMealForm.constructor | frontend/src/pages/Dashboard.tsx:22-27 | the form starts with empty texts, the on-diet option selected, no error and closed |
| Dashboard.NewMealForm.CleanMealFields | frontend/src/pages/Dashboard.tsx:155-161 | the texts become empty and the flag true; the error and the open state are kept |
| Dashboard.NewMealForm.HandleSubmit | frontend/src/pages/Dashboard.tsx:98-153 | nothing is sent exactly when the picked moment is later than now, and then the future error is set with the fields kept; otherwise the body of the fields is sent, and success closes the form and resets the fields, while failure keeps them and sets the failure message |
| MealDetails.OnDietRoundTrip | frontend/src/pages/MealDetails.tsx:48 | the displayed flag reads a stored `true`/`1` as true and `false`/`0` as false, and strings, null and objects never as true |
| MealDetails.DietJsonReadBack | frontend/src/pages/MealDetails.tsx:111 | the flag written into the body reads back under the schema's boolean field as the option chosen, and as nothing when no option is chosen |
| MealDetails.DateFallbackNeverFires | frontend/src/pages/MealDetails.tsx:97-99 | as written, the body's date is always the formatted date: the fallback to the stored date never fires, and an untouched date sends `undefined/undefined/0`, which the backend refuses |
| MealDetails.EditBodyAsWrittenFallbacks | frontend/src/pages/MealDetails.tsx:106-112 | in the body the page builds, name, description and hour are the edited value when non-empty and the stored one otherwise, the date is always the formatted date, and the flag is sent as chosen |
| MealDetails.EditBodyFallbacks | frontend/src/pages/MealDetails.tsx:106-112 | in the corrected body (the fix of the finding below), every text field, the date included, is the edited value when non-empty and the stored one otherwise; the flag is sent as chosen |
| MealDetails.NullDietRejected | frontend/src/pages/MealDetails.tsx:111 | with no option chosen, the null flag makes the backend refuse both the page's body and the corrected one, whatever the other fields |
| MealDetails.UntouchedEditKeepsMeal | frontend/src/pages/MealDetails.tsx:109-110 | in the corrected body (the fix of the finding below), with the date and hour untouched, the body is accepted and carries the stored date and hour |
| MealDetails.BodiesAgreeOnPickedDate | frontend/src/pages/MealDetails.tsx:97-109 | once a date is picked, the page's body and the corrected body are the same |
| MealDetails.EditedDateAccepted | frontend/src/pages/MealDetails.tsx:97-112 | in the page's body, a newly picked date and hour are sent reordered and as typed, and the backend accepts them |
| MealDetails.EditMealForm.constructor | frontend/src/pages/MealDetails.tsx:13-18 | the page starts with empty texts, no option chosen, no error and the editor closed |
| MealDetails.EditMealForm.LoadMeal | frontend/src/pages/MealDetails.tsx:47-48 | the effect sets the flag to the stored flag read as a boolean and changes nothing else |
| MealDetails.EditMealForm.CleanMealFields | frontend/src/pages/MealDetails.tsx:134-140 | the texts become empty and the flag null |
| MealDetails.EditMealForm.OpenEditor | frontend/src/pages/MealDetails.tsx:215-218 | the edit button clears the fields (discarding the loaded flag) and opens the editor |
| MealDetails.EditMealForm.HandleSubmit | frontend/src/pages/MealDetails.tsx:77-131 | nothing is sent exactly when the picked moment is later than now, and then the future error is set; otherwise the page's merged body (`EditBodyAsWritten`) is sent, and success closes the editor and shows the notice, while failure sets the failure message; the fields are never changed |
| MealDetails.OpenedEditorNeedsFlag | frontend/src/pages/MealDetails.tsx:134-140 | opening the editor, typing the required texts and submitting without choosing an option always sends, and sends a body the backend refuses |
| MealDetails.UntouchedDateEditRefused | frontend/src/pages/MealDetails.tsx:97-109 | opening the editor, typing the texts, choosing an option and submitting with the date untouched always sends `undefined/undefined/0` as the date, and the backend refuses the body |
| Scenario.RegisterBody | backend/src/routes/users.ts:30 | the registration body carries the three strings under their keys |
| Scenario.LoginBody | backend/src/routes/users.ts:86 | the login body carries the two strings under their keys |
| Scenario.SignUpAndLogIn | backend/src/routes/users.ts:16-140 | registering on an empty table and logging in with the cookie just set answers 201 then 200, and the cookie then resolves to the new user |
| Scenario.MealRoundTrip | backend/src/routes/meals.ts:21-116 | creating, listing, deleting and relisting a meal answers 201, 200, 200, 200; the first list is the one new row and the second is empty |
| Scenario.EndToEnd | backend/src/routes/meals.ts:21-116 | the whole session answers 201, 200, 201, 200, 200, 200 and lists the meal, then nothing |
| Scenario.ExampleInputs | backend/src/routes/users.ts:21-25 | the session's example name, password, hour and date pass their validators |

## Left out

- HTTP, Fastify wiring, route prefixes, logging hooks and the JSON serialisation of replies: each route is an operation on in-memory tables, and a reply is a datatype with its status code.
- knex as a SQL client: each statement is an atomic, sequential step on a sequence of rows stored in insertion order. Concurrency is not modelled.
- The middleware's fall-through after the missing-cookie 401, which has no `return`: the model rejects with no identity and does not model the second reply the code then attempts.
- Cookie attributes (path, maxAge, httpOnly, secure, sameSite): a reply only sets the cookie to a token, clears it, or leaves it alone.
- bcrypt salting and cost, zod's email grammar and `randomUUID`: these are arbitrary functions and fresh-value parameters. Whether the stored hash differs from the plaintext is therefore not stated.
- The `created_at` default of the database: the create takes the timestamp as a parameter. The migrations under backend/db/migrations are not part of this model.
- The Login, Register and App pages, all JSX, modals, navigation, the list page and the `document.body` class changes.
- JavaScript `Date` arithmetic: the selected moment is compared component by component, as the constructor sees in-range values. Out-of-range components (day 31 of a 30-day month, hour 25) normalise in JavaScript, and the model does not follow that.
- Seconds and milliseconds of "now": the selected moment has none, and `now` is given as whole minutes.
- Years below 100, which `new Date` maps to 1900 + year: `Later` compares the year as written.
- MealDetails.EditBodyFallbacks: states the fallbacks of the corrected body, where an empty date input falls back to the stored date. The page's own body never does (`MealDetails.EditBodyAsWrittenFallbacks`, `MealDetails.UntouchedDateEditRefused`).
- `Number` on strings other than digit strings: `JsText.ToNumber` gives NaN for every other string, which differs from JavaScript for signs, whitespace, decimals and exponents (`Number("-5")`, `Number(" 7")`, `Number("1e3")`). The pieces of a date or time input's value are digit strings or empty, so such strings never reach it.
- A thrown delete statement: the delete route has no `catch`, so the error reaches Fastify's default error handler. `DeleteMeal` has no fault case.
- The submit paths of the two forms that are not reachable with a picked date in the browser: the date input of the new-meal form is `required`. `HandleSubmit` takes whatever the fields hold.
- The page opened without a meal in `location.state`: the effect reads `meal.is_on_diet` (frontend/src/pages/MealDetails.tsx:48) before it checks `location.state`, so it throws on the null meal. The edit form's class is always constructed with a meal.
- The delete button of the meal-details page and the success modals: UI only.

## Findings

| source | as written | input that shows it | evidently intended | confidence | as-written member | corrected member |
|---|---|---|---|---|---|---|
| frontend/src/pages/MealDetails.tsx:109 | `meal_date: formattedDate ? formattedDate : meal.date`, where `formattedDate` is a template string and never empty | editing a meal with the name and description typed but the date input left empty: the body carries `meal_date: "undefined/undefined/0"`, which the backend's date pattern refuses, so the update answers 500 | fall back to the stored date when the date input is empty, as name, description and hour do | not executed | MealDetails.DateFallbackNeverFires | MealDetails.UntouchedEditKeepsMeal |

The edit form's class (`MealDetails.EditMealForm`) sends the page's body
`MealDetails.EditBodyAsWritten`, and `MealDetails.UntouchedDateEditRefused`
shows the failure through the class. `MealDetails.EditBody` is the corrected
body, with its property proved in `MealDetails.UntouchedEditKeepsMeal` and
`MealDetails.EditBodyFallbacks`.
