# LinkForge link store, modelled in Dafny

LinkForge is a link-in-bio service. A user registers, signs in with a session cookie that carries
their user id, keeps an ordered list of links, and edits a public profile with a theme. Each visit
to a public link is counted through a click beacon.

This project models the core of that service:

- the SQLite store (`src/lib/db.ts`): the `users`, `links` and `analytics` tables and every exported
  statement on them;
- the request handlers for links, registration, login, profile and clicks;
- the session and password helpers;
- the theme table;
- the pure helpers of the dashboard and register pages.

Layout:

- `common.dfy` (`Common`): `Option` and JavaScript truthiness of an optional string.
- `store.dfy` (`Store`): the rows as datatypes and the database as class `Db`. Its three tables are
  sequences in insertion order, plus the next AUTOINCREMENT id of `analytics`.
  - `Db.Valid()` is the invariant every statement keeps. It holds the schema's constraints and one
    property the statements maintain:
    - primary keys and UNIQUE columns (schema);
    - both foreign keys (schema);
    - AUTOINCREMENT ids strictly increasing (schema);
    - each owner's positions strictly increasing in table order (kept by `createLink`, which puts a
      new link above the owner's maximum, and by `deleteLink`, which does not renumber).
  - SELECT statements are functions `reads this`. INSERT, UPDATE and DELETE are methods `modifies this`.
  - When SQLite would refuse a statement, the method returns `ok == false` and changes nothing. This
    covers a duplicate primary key, a UNIQUE conflict and a foreign-key violation.
- `http.dfy` (`Http`): responses as status, body and optional session cookie, with the handlers'
  error messages.
- `auth.dfy`, `themes.dfy`, `links_api.dfy`, `register_api.dfy`, `login_api.dfy`, `clicks_api.dfy`,
  `profile_api.dfy`: one module per source file.
  - A handler that changes the store is a method on a `Db`. One that only reads it is a function.
  - The cookie and the JSON body fields are parameters. A missing field is `None`.
- `dashboard.dfy` (`Dashboard`): URL normalisation, the add/edit request guards, the click total and
  the rounded average of `src/app/dashboard/page.tsx`.
- `register_page.dfy` (`RegisterPage`): the username sanitiser and the submit-time
  `toLowerCase().trim()` of `src/app/register/page.tsx`.
- `scenarios.dfy` (`Scenarios`): handler sequences run against one store.
  - Registration followed by login.
  - A second registration with a taken email or username.
  - A new user's first dashboard session: two links, a delete, two clicks.

Three things come from outside and are parameters:

- the fresh id from `uuidv4`;
- the SHA-256 hex digest, as a function `sha256Hex: string -> string`;
- the session cookie value.

A fresh id is not assumed to be unused. If it collides, the INSERT fails on the primary key. The
register handler's `catch` then answers 500. The links handler has no `catch`, so the model
answers `Crashed`.

Three behaviours of the handlers worth knowing:

- `PUT /api/links` checks only the id. It does not require a title and url as creating a link does.
- `POST /api/links` has no `try`/`catch`. A failed INSERT is an unhandled exception, not a generic
  500 message.
- The links handlers do not check that a URL is absolute. Only the dashboard adds `https://`.

## Model

| member | source | states |
|---|---|---|
| Store.FindUser | src/lib/db.ts:64-77 | a row is found exactly when some row carries the key, and the row found carries it |
| Store.IndexOfLink | src/lib/db.ts:100-110 | the index found holds a row matching both id and owner; with none found, no row matches `WHERE id = ? AND user_id = ?` |
| Store.OwnedBy | src/lib/db.ts:95-98 | a row is in the result exactly when it is in the table and belongs to the owner |
| Store.MaxPosition | src/lib/db.ts:87 | `MAX(position)` over the owner's rows: absent exactly when the owner has none, otherwise attained by one of them and at least every one of them |
| Store.NextPosition | src/lib/db.ts:87-88 | `COALESCE(MAX(position), -1) + 1`: 0 when the owner has no links, otherwise one more than a position the owner has, and above every position the owner has, so creation order is position order |
| Store.NewUser | src/lib/db.ts:57-62 | the inserted row carries the four given columns and the schema defaults `''` for display name, bio and avatar and `midnight` for the theme |
| Store.Matches | src/lib/db.ts:100-110 | the `WHERE id = ? AND user_id = ?` condition of `updateLink` and `deleteLink` |
| Store.OwnedClicks | src/lib/db.ts:137-141 | `SUM(clicks)` over the owner's rows equals the reference sum over the owner's rows |
| Store.OwnedBySorted | src/lib/db.ts:95-98 | when each owner's positions increase in table order, the owner's rows come out in ascending position (`ORDER BY position ASC`) |
| Store.WithoutClicksOf | src/lib/db.ts:51 | the cascade keeps exactly the analytics rows of other links |
| Store.WithoutClicksOfKeepsOrder | src/lib/db.ts:46 | the cascade keeps the AUTOINCREMENT ids increasing |
| Store.DistinctIdsCount | src/lib/db.ts:21 | with unique primary keys, the row count equals the number of distinct ids |
| Store.AppendUser | src/lib/db.ts:20-23 | appending a user whose id, username and email are all new keeps the three columns unique and adds exactly its id |
| Store.AppendLink | src/lib/db.ts:86-92 | appending a link with a new id at the owner's next position keeps ids unique and positions increasing, and loses no click |
| Store.RemoveLinkAt | src/lib/db.ts:107-110 | removing the matching row keeps exactly the non-matching rows, removes exactly its id, keeps the invariants, and leaves surviving positions as they were |
| Store.RewriteLinks | src/lib/db.ts:100-105 | a rewrite that keeps ids, owners and positions keeps the id set and the invariants |
| Store.AppendClick | src/lib/db.ts:45-52 | appending a click for an existing link with the next id keeps the foreign key and the id order |
| Store.Db.Valid | src/lib/db.ts:20-52 | the tables' constraints: unique id, username and email in `users`; unique link ids; every link's owner and every click's link exist; analytics ids increasing and below the counter; each owner's positions increasing in table order |
| Store.Db.constructor | src/lib/db.ts:18-54 | a new database has three empty tables that satisfy the schema, and the first analytics id is 1 |
| Store.Db.GetUserById | src/lib/db.ts:74-77 | found exactly when the id is a stored user id, and the row found has that id |
| Store.Db.GetUserByUsername | src/lib/db.ts:64-67 | found exactly when some user has that username, and the row found has it |
| Store.Db.GetUserByEmail | src/lib/db.ts:69-72 | found exactly when some user has that email, and then it is that user (emails are unique) |
| Store.Db.CreateUser | src/lib/db.ts:57-62 | succeeds exactly when the id, username and email are all new; on success it appends one row with empty profile fields and theme `midnight`, and the user count grows by one; on failure nothing changes |
| Store.Db.UpdateUserProfile | src/lib/db.ts:79-84 | the row with that id gets the four profile columns; every other row and table is unchanged |
| Store.Db.GetTotalUsers | src/lib/db.ts:143-147 | `COUNT(*)` equals the number of distinct user ids |
| Store.Db.CreateLink | src/lib/db.ts:86-92 | succeeds exactly when the id is new and the owner exists; on success it appends one row at the owner's next position with 0 clicks and active; other rows and tables are unchanged |
| Store.Db.GetLinksByUserId | src/lib/db.ts:95-98 | exactly the owner's rows, sorted by ascending position |
| Store.Db.UpdateLink | src/lib/db.ts:100-105 | only the row matching id and owner has its title, url, icon and active replaced, keeping position and clicks; with no match the table is unchanged |
| Store.Db.DeleteLink | src/lib/db.ts:107-110 | exactly the matching row is removed, with its analytics rows; surviving rows keep their order and positions; with no match nothing changes |
| Store.Db.IncrementLinkClicks | src/lib/db.ts:112-115 | the row with that id gains exactly one click, and every other row is unchanged |
| Store.Db.RecordClick | src/lib/db.ts:117-123 | succeeds exactly when the link exists; then it gains one click and exactly one analytics row with the next id, the link, the referrer and the country is appended; otherwise nothing changes |
| Store.Db.GetTotalClicks | src/lib/db.ts:137-141 | the sum of clicks over the owner's links, which is 0 when the owner has none |
| Auth.GetSession | src/lib/auth.ts:7-19 | no cookie gives no user; a cookie gives a user exactly when it is a stored id, and that user has the cookie's id |
| Auth.VerifyPassword | src/lib/auth.ts:27-29 | true exactly when the stored hash equals the salted hash of the password |
| Auth.VerifyOwnHash | src/lib/auth.ts:21-29 | a password always verifies against its own hash |
| Auth.HashPassword | src/lib/auth.ts:21-25 | the stored hash is the SHA-256 hex digest of the password followed by the fixed salt `linkforge_salt_2026` |
| Themes.GetTheme | src/lib/themes.ts:76-78 | a known name gives its config, any other name gives midnight, and the result is always one of the table's configs |
| Themes.ThemeKeys | src/lib/themes.ts:2-63 | the table's keys are exactly midnight, ocean, sunset, forest, neon and minimal, each mapped to its own config |
| Themes.GetThemeIsKnown | src/lib/themes.ts:76-78 | the result is one of the six configs |
| Themes.UnknownThemeIsMidnight | src/lib/themes.ts:77 | every name outside the six keys, `''` included, gives midnight |
| Themes.DefaultThemeIsKey | src/lib/themes.ts:3 | the schema's default theme is a key of the table and selects midnight |
| LinksApi.IconOrDefault | src/app/api/links/route.ts:24 | a missing or empty icon becomes the link glyph, any other icon is kept, and the result is never empty |
| LinksApi.ActiveFlag | src/app/api/links/route.ts:36 | the stored flag is false exactly when the body's `active` is the JSON value `false` |
| LinksApi.ChangedList | src/app/api/links/route.ts:25-26 | a 200 response whose list is exactly the user's links in position order |
| LinksApi.Get | src/app/api/links/route.ts:6-12 | 401 without a session user; otherwise 200 with exactly that user's links, sorted by position |
| LinksApi.Post | src/app/api/links/route.ts:14-27 | 401 or a 400 for a missing title or url, both leaving the store unchanged; otherwise one link appended with the defaulted icon at the next position, and the user's full list returned |
| LinksApi.Put | src/app/api/links/route.ts:29-39 | 401 or a 400 for a missing id, both leaving the store unchanged; otherwise only the user's matching link is rewritten with the defaulted icon and `active !== false`, and the full list returned |
| LinksApi.Delete | src/app/api/links/route.ts:41-51 | 401 or a 400 for a missing id, both leaving the store unchanged; otherwise exactly the user's matching link and its clicks are removed, and the full list returned |
| Common.Utf16Length | src/app/api/auth/register/route.ts:14-22 | JavaScript's `length`: at least the number of characters and at most twice it, and equal to it exactly when no character lies outside the Basic Multilingual Plane |
| Common.Utf16LengthUnit | src/app/api/auth/register/route.ts:14-22 | one character has length 1, or 2 when it lies outside the Basic Multilingual Plane (a surrogate pair) |
| Common.Utf16LengthAppend | src/app/api/auth/register/route.ts:14-22 | the length of a concatenation is the sum of the lengths; with the unit case this fixes the length of every string |
| RegisterApi.UsernamePattern | src/app/api/auth/register/route.ts:18 | `/^[a-z0-9_-]+$/`: a non-empty string of lower-case ASCII letters, digits, `_` and `-` |
| RegisterApi.Rejection | src/app/api/auth/register/route.ts:10-41 | there is no rejection exactly when all fields are present, the username is 3 to 30 UTF-16 code units of `[a-z0-9_-]`, the password is at least 6 code units, neither email nor username is taken, and the name is not reserved |
| RegisterApi.AstralPasswordAccepted | src/app/api/auth/register/route.ts:22 | on an empty store, a password of three characters outside the Basic Multilingual Plane counts as 6 and is accepted |
| RegisterApi.FormatChecksFirst | src/app/api/auth/register/route.ts:10-24 | the missing-field, length, charset and password checks fire in that order, with their own messages |
| RegisterApi.StoreChecksInOrder | src/app/api/auth/register/route.ts:27-41 | a taken email is reported before a taken username, and both before a reserved name |
| RegisterApi.Post | src/app/api/auth/register/route.ts:6-61 | a rejection answers 400 with its message and changes nothing; a colliding id answers 500; otherwise exactly one user with the fresh id and the salted hash is appended, and the session cookie is that id |
| LoginApi.Post | src/app/api/auth/login/route.ts:5-35 | missing fields give 400; 200 exactly when an account with that email verifies the password, with that account's id as session; every other case is 401 with one shared message |
| LoginApi.LoginFindsAccount | src/app/api/auth/login/route.ts:13-28 | an account whose hash is that of the password signs in with its own id |
| ClicksApi.Referrer | src/app/api/clicks/route.ts:9 | the `referer` header when present, `''` otherwise |
| ClicksApi.Post | src/app/api/clicks/route.ts:5-16 | 400 without a link id and 500 for an unknown link, both changing nothing; otherwise one click recorded with the referrer and an empty country |
| ProfileApi.Merge | src/app/api/profile/route.ts:13-16 | `??`: a supplied value wins, and only a missing or null one keeps the current value |
| ProfileApi.Merged | src/app/api/profile/route.ts:11-17 | each supplied field overwrites and each missing one is kept; id, username, email and hash never change, and an empty body changes nothing |
| ProfileApi.Put | src/app/api/profile/route.ts:5-20 | 401 without a session, changing nothing; otherwise only the session user's row becomes the merged row, and an empty body leaves the store unchanged |
| Dashboard.NormalizeUrl | src/app/dashboard/page.tsx:79 | a URL starting with `http` is kept, any other gets `https://` in front; the result always starts with `http` |
| Dashboard.NormalizeIdempotent | src/app/dashboard/page.tsx:103 | normalising twice is normalising once |
| Dashboard.AddLinkRequest | src/app/dashboard/page.tsx:76-84 | nothing is sent exactly when the title or url is empty; otherwise the body carries the title, the icon and the url as `NormalizeUrl` makes it |
| Dashboard.AddLinkPassesServerCheck | src/app/dashboard/page.tsx:78-83 | every body the dashboard sends passes the server's title/url guard |
| Dashboard.SaveEditRequest | src/app/dashboard/page.tsx:102-108 | the edit body always has `active: true`, with the id, title, icon and the url as `NormalizeUrl` makes it |
| Dashboard.SaveEditReactivates | src/app/dashboard/page.tsx:107 | the server stores every saved edit as active |
| Dashboard.FoldClicks | src/app/dashboard/page.tsx:130 | `links.reduce((sum, l) => sum + l.clicks, 0)` as a left fold; its sum is stated by `FoldClicksIsSum` |
| Dashboard.FoldClicksIsSum | src/app/dashboard/page.tsx:130 | the `reduce` from an accumulator adds the reference click sum to it |
| Dashboard.TotalClicks | src/app/dashboard/page.tsx:130 | the displayed total is the sum of clicks over the list, 0 for an empty list |
| Dashboard.DashboardTotalIsStoreTotal | src/app/dashboard/page.tsx:130 | the dashboard's total over the listed links equals the store's click total for the user |
| Dashboard.AverageClicks | src/app/dashboard/page.tsx:177 | 0 when the total or the count is 0; otherwise the total divided by the count, rounded half up |
| RegisterPage.Sanitize | src/app/register/page.tsx:70 | the output has only `[a-zA-Z0-9_-]`, and holds each allowed character exactly as often as the input does |
| RegisterPage.SanitizeIsSubsequence | src/app/register/page.tsx:70 | the output is a subsequence of the input |
| RegisterPage.SanitizeKeepsClean | src/app/register/page.tsx:70 | an already clean value passes through unchanged |
| RegisterPage.SanitizeIdempotent | src/app/register/page.tsx:70 | sanitising twice is sanitising once |
| RegisterPage.ToLower | src/app/register/page.tsx:24 | same length, each character lower-cased |
| RegisterPage.TrimStart | src/app/register/page.tsx:24 | a suffix of the input that starts with no white space, with only white space cut away |
| RegisterPage.TrimEnd | src/app/register/page.tsx:24 | a prefix of the input that ends with no white space, with only white space cut away |
| RegisterPage.Trim | src/app/register/page.tsx:24 | `trim()`: the result is a slice of the input whose cut-off head and tail are white space only, and it neither starts nor ends with white space |
| RegisterPage.SubmittedUsername | src/app/register/page.tsx:24 | `toLowerCase().trim()`: a slice of the lower-cased input whose cut-off head and tail are white space only, neither starting nor ending with white space |
| RegisterPage.TrimNoWhitespace | src/app/register/page.tsx:24 | trimming a string without white space leaves it unchanged |
| RegisterPage.LowerInputChar | src/app/register/page.tsx:24 | a lower-cased allowed character is one of `[a-z0-9_-]` and not white space |
| RegisterPage.SubmittedSanitizedIsServerClean | src/app/register/page.tsx:24 | the submitted form of a sanitised value is its lower-cased form, has only `[a-z0-9_-]`, and passes the server's charset check when non-empty |
| Scenarios.RegisterThenLogin | src/app/api/auth/login/route.ts:13-28 | after a successful registration, logging in with the same email and password succeeds with the same id |
| Scenarios.RegisterTwice | src/app/api/auth/register/route.ts:27-35 | after a successful registration, the same email is refused as taken, and the same username with a new email is refused as taken |
| Scenarios.SignUpAlice | src/app/api/auth/register/route.ts:43-49 | registering `alice` on an empty store creates exactly that user |
| Scenarios.AddFirstLink | src/app/api/links/route.ts:14-27 | the first link gets position 0, no clicks, active and the default icon |
| Scenarios.AddSecondLink | src/lib/db.ts:87 | the second link gets position 1 |
| Scenarios.DeleteFirst | src/lib/db.ts:107-110 | deleting the first link leaves the second at position 1 |
| Scenarios.ClickTwice | src/lib/db.ts:117-123 | two clicks give that link 2 clicks and two analytics rows referencing it |
| Scenarios.ListOwnLinks | src/lib/db.ts:95-98 | with one user and only that user's links, the listing is the whole table |
| Scenarios.FirstSession | src/lib/db.ts:86-123 | the session ends with only the second link, at position 1 with 2 clicks, two analytics rows for it, a listing of exactly that link and a click total of 2 |

## Left out

- `getAnalyticsByUserId`: its seven-day window depends on the clock, so it is not modelled.
- The timestamp columns (`created_at`, `clicked_at`) are not modelled.
- The schema's icon default is not modelled, because every INSERT passes an icon.
- The SQLite engine, the WAL and foreign-key pragmas and the lazily opened handle are not modelled. The foreign keys are taken as enforced.
- Concurrency is not modelled: each statement runs atomically, one after another. This hides the race between reading the maximum position and inserting.
- SHA-256 is a parameter `sha256Hex`. The model keeps only its determinism and the fixed salt.
- Cookie attributes (httpOnly, sameSite, maxAge, path) are not modelled. The session is only the cookie's value.
- JSON parsing errors are not modelled.
- Body fields of a non-string JSON type are not modelled, except PUT's `active`.
- LinksApi.Put: title and url are present strings. An absent one would be bound as SQL NULL and refused by `NOT NULL`, and that depends on how the driver binds `undefined`.
- The `/api/auth/me` and `/api/auth/logout` routes, the public profile page and all React state are not modelled.
- RegisterPage.ToLower: lowercases ASCII letters only. JavaScript's `toLowerCase` also maps other letters, but a sanitised value holds only ASCII.
- Dashboard.AverageClicks: `Math.round` on a float is modelled as exact integer rounding, half up.
- Themes.GetTheme: inherited `Object.prototype` members (such as `toString`) are not table keys here, although JavaScript's lookup would return them.
