# Authentication and input-handling rules of a T3 web application

This project models, in Dafny, the decision and arithmetic rules that sit around
authentication and input handling in a Next.js / tRPC / NextAuth / Prisma web
application, and proves properties of them:

- the utility helpers of `src/lib/utils.ts`: URL and query-string assembly
  (`createUrl`, `createSearchParams`), the token expiry rule (`getTokenExpiryDate`,
  `isDateExpired`), `YYYY-MM-DD` formatting, the months/days borrow of
  `getRemainingMonthsAndDays`, `isDateToday`, the start/end-of-day setters and the
  file-size limit check `isFileSizeAllowed`;
- the tRPC procedure builders of `src/server/api/trpc.ts`: the admin and
  super-admin middlewares, the public procedure and the error formatter;
- the NextAuth options of `src/server/auth.ts`: the credentials `authorize` and
  the `jwt` and `session` callbacks;
- the user router of `src/server/api/routers/user.ts`: `register` as a state
  change of the user table, and `detail`;
- the zod validators of `src/server/api/schema/schema.ts`.

JavaScript values are the datatype `JsValue.Json`: objects are finite maps and a
missing property reads as `undefined`, so object spreads (`{...a, ...b}`) are map
unions. "Now" is a parameter. An instant is an integer count of milliseconds. A
calendar date is a `(year, month index, day)` record. The user table is an ordered
list of rows held by the class `Db.UserTable`. `register` changes it in place;
`authorize` and `detail` only read it. Several outside functions are parameters:
email-format checking (`isEmail`), bcrypt's `hash`, argon2's `verify`, the
form-urlencoded serializer (`encode`) and the id Prisma generates for a new row
(`newId`). `THROW_TRPC_ERROR`, which comes from `src/trpc/shared.ts`, is taken to
throw a tRPC error with the code it is given. That file is not part of this
model; the middlewares' `Throw(code)` outcome stands for the throw.
`createSearchParams` keeps its nested loops: the inner `for` is its own method,
`Url.AppendEach`, with its own invariant.

Registration hashes with bcrypt (`src/server/api/routers/user.ts:2,14`), but sign-in
checks with argon2 (`src/server/auth.ts:5,46`). For a registration validated with
`schema.register`, `SignInFlow.CorrectedRegisterThenSignIn` proves that the new
account signs in exactly when `verify(hash(p), p)` holds. With the router's
own four-unit schema, a password of four or five units registers and then never
signs in (`SignInFlow.ShortPasswordRegistersButCannotSignIn`). The model assumes nothing about that pair of functions.

Three facts about the code are easy to miss:

- the router's `register` accepts passwords of four UTF-16 code units, while
  `schema.register` and the login schema demand six (see Findings);
- `isDateExpired` treats `expiry <= now` as expired, so a token whose expiry
  is the current instant is already expired;
- apart from the two expiry helpers, the code that issues and consumes
  verification and reset tokens lies outside the modelled files.

String lengths are those of JavaScript: `JsValue.JsLength` counts UTF-16 code
units, two for a character outside the Basic Multilingual Plane. Every `min(n)`
check of the schemas uses it.

## Model

| member | source | states |
|---|---|---|
| Url.CreateUrl | src/lib/utils.ts:21-25 | exactly the pathname when there are no parameters, otherwise pathname + "?" + the serialized parameters |
| Url.Serialize | src/lib/utils.ts:22 | `params.toString()`: `name=value` per entry joined by "&"; `Url.SerializeEmptyIff` states when it is empty |
| Url.SerializeEmptyIff | src/lib/utils.ts:22-23 | the serialized parameters are empty exactly when there are no entries, which is the case `createUrl` tests with `length` |
| Url.CreateUrlSplits | src/lib/utils.ts:21-25 | splitting the URL at its first "?" gives back the pathname and the serialized parameters (pathname without "?") |
| Url.CreateSearchParams | src/lib/utils.ts:27-42 | the result is the copy of `newParams` followed by `Expand(params)`: nothing is overwritten, entries are only appended |
| Url.Copy | src/lib/utils.ts:31 | `new URLSearchParams(newParams)`: the given entries, none when absent; `Url.CreateSearchParams` starts from it |
| Url.Expand | src/lib/utils.ts:32-40 | the entries the loop appends, key by key in `Object.entries` order; `Url.ExpandLength`, `Url.ExpandKeys` and `Url.ExpandKeepsValues` state what it holds |
| Url.AppendEach | src/lib/utils.ts:34-36 | the inner loop appends `(key, value)` for each array element, in order |
| Url.ExpandLength | src/lib/utils.ts:32-40 | one appended entry per string value and one per array element |
| Url.ExpandKeys | src/lib/utils.ts:32-40 | every appended entry carries a key of the record |
| Url.ExpandKeepsValues | src/lib/utils.ts:32-40 | every string value and every array element appears under its key |
| Url.CreateSearchParamsShape | src/lib/utils.ts:31-41 | the existing entries stay as a prefix and the length grows by the total count of values |
| Dates.GetTokenExpiryDate | src/lib/utils.ts:78 | the expiry is later than now, unexpired for the whole next hour and expired exactly one hour on |
| Dates.IsDateExpired | src/lib/utils.ts:123 | `expiryDate <= now`; `Dates.TokenLiveWindow` and `Dates.ExpiryAtNowIsExpired` state its consequences |
| Dates.TokenLiveWindow | src/lib/utils.ts:123 | a token issued at t is unexpired at now exactly when now < t + 3600000 |
| Dates.ExpiryAtNowIsExpired | src/lib/utils.ts:123 | an expiry equal to now is already expired and stays expired |
| Dates.FormatDate | src/lib/utils.ts:134-139 | the UTC year, two-digit month index + 1 and two-digit day joined by "-"; `Dates.FormatDateRoundTrip` proves nothing is lost |
| Dates.FormatDateRoundTrip | src/lib/utils.ts:134-139 | `year-MM-DD` with month index + 1 and day padded to two digits reads back as the same date |
| Dates.GetTodayDate | src/lib/utils.ts:44-50 | today's UTC date in the same format, reading back as today's date |
| Dates.IsDateToday | src/lib/utils.ts:125-132 | day, month and full year compared with now's; `Dates.IsDateTodayIsSameDate` states what that means |
| Dates.IsDateTodayIsSameDate | src/lib/utils.ts:125-132 | "today" holds iff day, month and full year agree, whatever the time of day |
| Dates.GetRemainingMonthsAndDays | src/lib/utils.ts:100-121 | months = 12·(ty−cy) + (tm−cm) and days = td−cd when td ≥ cd; otherwise one month fewer and days borrowed from the month before the target |
| Dates.DaysInPreviousMonth | src/lib/utils.ts:116 | `new Date(y, m, 0).getDate()`: the length (28 to 31) of the month before m, 31 for January, with years 0 to 99 read as 1900 to 1999 |
| Dates.TwoDigitYearBorrow | src/lib/utils.ts:116 | March of year 0 borrows February 1900 (28 days) while March 2000 borrows 29; from (0, Feb, 15) to (0, Mar, 1) gives (0, 14) |
| Dates.RemainingMonthsAndDays | src/lib/utils.ts:111-118 | the source's pair of months and days; `Dates.GetRemainingMonthsAndDays` computes it and the lemmas below state its range |
| Dates.RemainingForFutureTarget | src/lib/utils.ts:111-118 | for a target not before today the months are never negative; the same date gives (0, 0) |
| Dates.RemainingDaysInRange | src/lib/utils.ts:112-118 | the days lie in 0..30 whenever today's day exists in the month before the target |
| Dates.RemainingDaysNegativeExample | src/lib/utils.ts:112-117 | from 31 January to 1 March 2023 the function answers one month and −2 days |
| Dates.RemainingMonthsAndDaysClamped | src/lib/utils.ts:114-118 | the corrected borrow: the same months, and days that are never negative |
| Dates.ClampedAgreesWhenDayExists | src/lib/utils.ts:114-118 | the corrected borrow equals the source's when today's day exists in the borrowed month, and gives more days when it borrows and today's day does not exist in the borrowed month |
| Dates.DayBounds | src/lib/utils.ts:65-75 | 00:00:00.000 is the first and 23:59:59.999 the last valid time of a day |
| Dates.JsDate.SetHours | src/lib/utils.ts:67 | `setHours(h, m, s, ms)` with in-range arguments keeps the calendar date and sets the time |
| Dates.GetStartDate | src/lib/utils.ts:65-69 | a new date with the parsed calendar date at 00:00:00.000 |
| Dates.GetEndDate | src/lib/utils.ts:71-75 | a new date with the parsed calendar date at 23:59:59.999 |
| Dates.GetExpiryDateFromDate | src/lib/utils.ts:88-92 | a new date with the parsed calendar date at 23:59:59.999 |
| Dates.GetTodayExpiryDate | src/lib/utils.ts:94-98 | a new date with today's calendar date at 23:59:59.999 |
| Decimal.NatToStringRoundTrip | src/lib/utils.ts:177 | `parseInt` of the digits `String(n)` writes gives n back |
| Decimal.DigitsValue | src/lib/utils.ts:177 | `parseInt(match[1], 10)` on a digit string: its decimal value, read from the last digit; `Decimal.NatToStringRoundTrip` proves it inverts `String(n)` |
| Decimal.NatToString | src/lib/utils.ts:136 | `String(n)` for a natural number: a non-empty digit string without leading zero, one digit iff n < 10 |
| Decimal.PadStart2 | src/lib/utils.ts:136-137 | `padStart(2, "0")`: strings of two or more unchanged, shorter ones left-filled with "0" to length 2 |
| Decimal.TwoDigitsRoundTrip | src/lib/utils.ts:136-137 | `String(n).padStart(2, "0")` for n < 100 is two digits that read back as n |
| Decimal.IntToStringRoundTrip | src/lib/utils.ts:135 | the year as `String(year)` writes it, negative years included, reads back as that year |
| Decimal.IntToString | src/lib/utils.ts:135 | `String(year)`: digits for a non-negative year, "-" and digits for a negative one; `Decimal.IntToStringRoundTrip` proves it reads back |
| FileSize.MatchFileSize | src/lib/utils.ts:175-178 | a match splits the text into a non-empty digit group followed by exactly one unit name |
| FileSize.PowOf2Lookup | src/lib/utils.ts:160-172 | the `powOf2` table holds exactly the powers of two from 1 to 1024, each mapped to itself |
| FileSize.BytesInUnit | src/lib/utils.ts:153-158 | the `bytesInUnit` table B=1, KB=1024, MB=1024², GB=1024³; `FileSize.IsFileSizeAllowedOnLimit` states the limit it gives |
| FileSize.IsFileSizeAllowed | src/lib/utils.ts:174-183 | throws exactly when the limit text does not match the pattern |
| FileSize.MatchLimit | src/lib/utils.ts:149-151 | every `FileSize` literal matches with its count digits and its unit |
| FileSize.IsFileSizeAllowedOnLimit | src/lib/utils.ts:174-183 | for every `FileSize` literal, allowed iff size < count × bytesInUnit[unit] (B=1, KB=1024, MB=1024², GB=1024³) |
| FileSize.OneMegabyteIsExclusive | src/lib/utils.ts:181 | `isFileSizeAllowed("1MB", 1048576)` is false and `("1MB", 1048575)` is true: the bound is strict |
| FileSize.CountOutsideTableAllowsNothing | src/lib/utils.ts:180-182 | for every count missing from `powOf2`, in any unit, the limit is NaN, so no size is allowed |
| FileSize.ThreeMegabytesAllowsNothing | src/lib/utils.ts:180-182 | the example "3MB": no size is allowed |
| Schema.ParseEmailType | src/server/api/schema/schema.ts:4 | accepts exactly "VERIFY" and "FORGOT_PASSWORD" |
| Schema.ParseOrder | src/server/api/schema/schema.ts:5 | accepts exactly absent, "asc" and "desc" |
| Schema.ParsePagination | src/server/api/schema/schema.ts:6 | accepts iff the value is an object whose `page` is a number ≥ 1 and whose `limit` is absent or a number ≥ 1; the result holds both as given |
| Schema.PaginationRoundTrip | src/server/api/schema/schema.ts:6 | every valid pagination is accepted as written |
| Schema.PaginationRejectsBelowOne | src/server/api/schema/schema.ts:6 | a page or a present limit below 1 is refused |
| Schema.ParsePassword | src/server/api/schema/schema.ts:7 | accepts a string iff it has at least six UTF-16 code units |
| JsValue.JsLength | src/server/api/schema/schema.ts:7 | the `.length` zod's `min` checks: between |s| and 2·|s|, equal to |s| iff every character lies in the Basic Multilingual Plane |
| Schema.ParseCredentials | src/server/api/schema/schema.ts:8-9 | `login` and `register` accept iff an email-format string `email` and a `password` of at least six UTF-16 code units, returned as given |
| Schema.CredentialsRoundTrip | src/server/api/schema/schema.ts:8-9 | credentials with a valid email and a password of six or more code units are accepted as written |
| Schema.ParseNullishString | src/server/api/schema/schema.ts:45 | accepts exactly absent, null or a string |
| Schema.ParseUserCreate | src/server/api/schema/schema.ts:42-47 | refused iff name is shorter than 4 code units, email invalid, positionId not nullish string or graduatedDate not a string; accepted fields are returned as given |
| Schema.UserCreateRoundTrip | src/server/api/schema/schema.ts:42-47 | every valid user record is accepted as written |
| Schema.ParsePositionCreate | src/server/api/schema/schema.ts:55 | accepts iff name is a string of length ≥ 1 |
| Schema.ParseDetail | src/server/api/schema/schema.ts:49 | accepts iff `id` is a string |
| Schema.ParseUserUpdate | src/server/api/schema/schema.ts:50 | accepts iff `id` is a string and `body` passes `user.create` |
| Schema.ParsePositionUpdate | src/server/api/schema/schema.ts:57 | accepts iff `id` is a string and `body` passes `position.create` |
| Trpc.EnforceRole | src/server/api/trpc.ts:25-33 | passes iff a session exists whose user has the given roleId, handing on the context unchanged; no session gives UNAUTHORIZED |
| Trpc.EnforceAdminIsAuthed | src/server/api/trpc.ts:25-28 | passes iff session.user.roleId is 1, with the context unchanged; otherwise it throws |
| Trpc.EnforceSuperAdminIsAuthed | src/server/api/trpc.ts:30-33 | passes iff session.user.roleId is 2, with the context unchanged; otherwise it throws |
| Trpc.PublicProcedure | src/server/api/trpc.ts:36 | every context proceeds unchanged |
| Trpc.GatesDisjoint | src/server/api/trpc.ts:25-33 | no context passes both middlewares; a super-admin is refused by the admin middleware and vice versa |
| Trpc.ErrorFormatter | src/server/api/trpc.ts:14-22 | all fields of shape and shape.data are kept; zodError is non-null iff the cause is a zod error, and is then its flattening |
| Db.FindFirst | src/server/auth.ts:44 | the first row holding the key in the chosen column (email here, id at src/server/api/routers/user.ts:22): every earlier row holds another value; none iff no row holds it |
| Db.FindByUniqueEmail | src/server/api/routers/user.ts:12 | with unique emails the lookup returns the one row holding the email |
| Db.FindNewEmail | src/server/api/routers/user.ts:15-17 | a row appended with an email no earlier row had is the one found by that email |
| Db.UserTable.FindUniqueByEmail | src/server/api/routers/user.ts:12 | finds a row with the email, none iff the table has none |
| Db.UserTable.Create | src/server/api/routers/user.ts:15-17 | appends exactly the new row when its id and email are free, otherwise fails leaving the table unchanged |
| Auth.Authorize | src/server/auth.ts:39-51 | null when the login schema fails or no user has the email; a returned user is a stored row with the input email whose hash `verify` accepts for the password; an exception only when such a row exists and `verify` throws on its hash |
| Auth.CheckPassword | src/server/auth.ts:46-47 | `verify(user.password, password)`: the user when it accepts, null when it refuses, its exception passed on; `Auth.AuthorizeStoredUser` ties `Auth.Authorize` to it |
| Auth.AuthorizeStoredUser | src/server/auth.ts:44-47 | with unique emails, valid credentials of a stored user get `verify`'s answer about that user: the user when it accepts, null when it refuses, its exception when it throws |
| Auth.UnknownEmailLooksLikeWrongPassword | src/server/auth.ts:45-50 | when `verify` refuses, an unknown email and a wrong password both give null |
| Auth.ThrowingVerifyRevealsKnownEmail | src/server/auth.ts:45-47 | when `verify` throws on a stored hash, the known email ends in an exception while an unknown email gets null |
| Auth.ShortPasswordNeverAuthorizes | src/server/auth.ts:40-42 | a password under six UTF-16 code units gives null whatever the table and `verify` |
| Auth.Jwt | src/server/auth.ts:25 | the token merged with the user, the user's fields winning, the token's other fields kept |
| Auth.SignInTokenCarriesRow | src/server/auth.ts:25 | at sign-in the token receives the row's id, roleId and password hash |
| Auth.SessionCallback | src/server/auth.ts:26-29 | all session and session.user fields kept except user.id, copied from token.id, and user.isSuperAdmin, true iff token.roleId is 2 |
| Auth.SessionCallbackWithRole | src/server/auth.ts:26-29 | the corrected callback: as above, and user.roleId copied from the token |
| UserRouter.ParseRegisterInput | src/server/api/routers/user.ts:10 | accepts iff an email-format `email` and a string `password` of at least four UTF-16 code units |
| UserRouter.RegisterWith | src/server/api/routers/user.ts:11-18 | BAD_REQUEST iff the input is refused; CONFLICT iff the email is taken; success iff the input parses and both its email and the new id are free; any error leaves the table unchanged; success appends exactly the new user with the hashed password and returns "Account created"; unique emails and ids are preserved |
| UserRouter.RegisterSpec | src/server/api/routers/user.ts:9-19 | `register` as written: success only for passwords of four UTF-16 code units or more |
| UserRouter.RegisterSpecCorrected | src/server/api/routers/user.ts:10 | `register` validated with `schema.register`: success only for input the login schema accepts |
| UserRouter.Register | src/server/api/routers/user.ts:9-19 | the answer and the new table are those of `RegisterSpec`, and unique emails and ids are kept |
| UserRouter.RegisterAddsOneUser | src/server/api/routers/user.ts:14-17 | success adds exactly one row after the unchanged old rows, with the input email and hash(password), found by that email |
| UserRouter.Detail | src/server/api/routers/user.ts:21-23 | the row whose id is the session user's id, none iff no row has it; without an id the condition is dropped and some row is returned, which the model takes to be the first |
| SignInFlow.ShortPasswordRegistersButCannotSignIn | src/server/api/routers/user.ts:10 | a password of 4 or 5 UTF-16 code units registers successfully, but `authorize` answers null for it against the resulting table |
| SignInFlow.CorrectedRegisterThenSignIn | src/server/auth.ts:44-47 | after a corrected registration, signing in with the same credentials gets `verify(hash(p), p)`'s answer: the user iff it accepts, an exception iff it throws |
| SignInFlow.CallbackSessionFailsBothGates | src/server/auth.ts:26-29 | a session built by the callback from a user without roleId is refused by both middlewares |
| SignInFlow.AdminTokenRejectedExample | src/server/api/trpc.ts:26 | a token with roleId 1 still yields a session the admin middleware refuses |
| SignInFlow.CorrectedSessionFollowsRole | src/server/api/trpc.ts:25-33 | with roleId copied, the admin middleware passes iff token.roleId is 1 and the super-admin one iff isSuperAdmin is true |
| SignInFlow.SignedInUserTier | src/server/auth.ts:25-29 | with the role-copying session callback, from sign-in to middleware: admin tier iff the row's role is 1, super-admin tier iff it is 2 (with the callback as written, neither) |

## Left out

- The token-consuming procedures (`isTokenValid`, `verifyEmail`, `isForgotPasswordTokenExpired`, `updatePassword`), issuing tokens and sending email: their implementations are not part of this model.
- React pages and components, the `send` and `uploadthing` routes, the email template and `src/trpc/shared.ts`: rendering, network and storage plumbing.
- `loadToTop`, `cn`, `consoleError`, `getTodayDateLong`, `formatDateLong`: DOM, styling-library, console and locale formatting.
- `getExpiryDate`: it relies on the `Date` library normalising out-of-range days and months, which is not modelled.
- `getNewDate` and date-string parsing: callers pass the parsed date. The clock reading is a parameter. The model does not tie an instant to its local or UTC calendar date.
- Dates.JsDate.SetHours: requires in-range arguments. JavaScript normalises out-of-range ones, but the helpers only pass 0:00:00.000 and 23:59:59.999.
- Dates.GetRemainingMonthsAndDays: requires valid calendar dates. A `Date`'s getters never report anything else.
- Url.Expand: takes the record's entries in `Object.entries` order as given. That order puts integer-like keys first, ascending; computing it is not modelled.
- Url.Serialize: percent-encoding of names and values is the parameter `encode`.
- Email-format validation (`z.string().email()`) is the parameter `isEmail`.
- bcrypt's `hash` is a deterministic function parameter, so its random salt is not modelled. argon2's `verify` is a parameter that returns either a verdict or the exception it throws. It is not modelled which hash formats make it throw; `Auth.ThrowingVerifyRevealsKnownEmail` covers the throwing case.
- JavaScript strings holding unpaired surrogates are not modelled, because strings here are sequences of Unicode scalar values.
- Numbers are exact (`real` in JSON values, `int` for sizes and instants): NaN, infinities and floating-point rounding are not modelled. The one NaN the source produces, a count missing from `powOf2`, is modelled as "no size allowed".
- Spreading a string or an array, and reading built-in properties such as `length`, are not modelled. The source only spreads objects, `null` and `undefined`.
- The user row has only the columns the core reads (id, email, password, roleId). The Prisma schema that sets the `roleId` default is not part of this model, so the default is a constructor parameter of `Db.UserTable`.
- Prisma errors other than unique-constraint failures are not modelled. Two registrations racing between `findUnique` and `create` are not modelled either.
- UserRouter.Detail: the table's row order stands for the order the database happens to return rows in. `findFirst` without `orderBy` fixes no order, so "the first row" is the model's choice, not a promise of the source.
- `protectedProcedure`, which guards `detail`, is not defined in the `trpc.ts` modelled here. `UserRouter.Detail` takes the session user's id directly.
- `schema.user.sorting`, `schema.user.list` and `schema.position.list`: listing schemas that none of the modelled operations uses.
- The Google provider, the Prisma adapter and environment configuration.

## Findings

| source | as written | input that shows it | evidently intended | confidence | as-written member | corrected member |
|---|---|---|---|---|---|---|
| src/server/auth.ts:26-29 | the `session` callback copies `id` and `isSuperAdmin` into the session user but not `roleId`, which both middlewares at src/server/api/trpc.ts:26,31 read | session user `{name, email}` and token `{id: "u1", roleId: 1}`: the admin middleware answers UNAUTHORIZED | the session user carries the token's `roleId`, so the middlewares admit roles 1 and 2 | medium (depends on NextAuth's default session user holding only name, email and image); not executed | SignInFlow.CallbackSessionFailsBothGates | Auth.SessionCallbackWithRole |
| src/server/api/routers/user.ts:10 | `register` validates passwords with `min(4)`, while `schema.register` and the login schema require six UTF-16 code units | email "a@b.co" with password "abcd": the account is created, but `authorize` refuses those credentials | `register` validates with `schema.register`, so every registered password can pass the login schema | medium; not executed | SignInFlow.ShortPasswordRegistersButCannotSignIn | UserRouter.RegisterSpecCorrected |
| src/lib/utils.ts:114-118 | the borrow subtracts today's day from the length of the month before the target even when that month is shorter than today's day | from 31 January 2023 to 1 March 2023: one month and −2 days | today's day clamped to the borrowed month's length: one month and 1 day, never a negative day count | medium; not executed | Dates.RemainingDaysNegativeExample | Dates.RemainingMonthsAndDaysClamped |
