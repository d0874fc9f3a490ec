# Store ratings — a Dafny model

This project models the core of a store-rating web application. Users rate
stores on a 1..5 scale. Store owners see the ratings of their own store.
Admins create users and stores and see everything.

The backend is an Express service over PostgreSQL with three tables:
`users`, `stores` and `ratings`. Here it becomes the class
`Backend.Database`. The class holds the three tables as sequences and the
three serial counters. Each state-changing handler is a method on it:

- adding, updating and deleting a rating;
- adding a user, registering, and adding a store;
- changing a password.

The read-only handlers are functions of the tables and of the caller's token
claims. They cover login, the profile, the rating reports, the store lists,
the user lists, the dashboard and the owner list.

Each handler replies with a status, or with a `Reply` datatype (`Denied` with
a status, or `Answer` with the body). Every status the handlers produce is
modelled except 500.

SQL is modelled as follows:

- `ROUND(AVG(rating)::numeric, 2) || 0` is an integer number of hundredths,
  rounded half away from zero, and 0 when there are no ratings.
- An inner join on a primary key is a lookup. A row without a partner drops
  out.
- `ORDER BY r.id DESC` is the reverse of the table. The table is kept in
  ascending id order.
- `INSERT … ON CONFLICT (user_id, store_id) DO UPDATE` replaces the value of
  the existing row. It takes a serial id whether or not it inserts, as
  PostgreSQL's `nextval` does.

The client side has three parts:

- `StoreList`, the user page: a class holding the page state. Its rating
  submission either patches the fetched ratings list in place or appends to
  it. Functions model the search and the per-store enrichment.
- `AdminDashboard`: client-side store averages and the two name searches.
- `PrivateRoute` and the route table of `App`.

The modules and what they hold:

| module | file | contents |
|---|---|---|
| `Tables` | tables.dfy | the rows, the role and status constants, first-match lookups |
| `Crypto` | crypto.dfy | an ideal password digest (bcrypt's hash and compare) |
| `Text` | text.dfy | ASCII `toLowerCase` and `includes`, with `includes` proved against "occurs at some position" |
| `Seqs` | seqs.dfy | `filter` and its laws, sequence reversal |
| `Validation` | validation.dfy | the field checks of the three creating handlers and the password pattern |
| `Averages` | averages.dfy | SQL's rounded average in hundredths, and the client's mean |
| `Ledger` | ledger.dfy | the ratings table and its operations: upsert, update, delete, per-store average |
| `Backend` | database.dfy | the three-table database class and its state-changing handlers |
| `Accounts` | accounts.dfy | login and profile |
| `Reports` | reports.dfy | the read-only rating, store, user and dashboard handlers |
| `StoreList` | storelist.dfy | the user's store page |
| `AdminDashboard` | admindashboard.dfy | the admin page's derived lists |
| `Routes` | routes.dfy | `PrivateRoute` and the route table |

## Model

| member | source | states |
|---|---|---|
| Tables.FindUser | backend/src/controllers/user.controller.js:21-28 | the row found has the id asked for; none is found exactly when no row has it |
| Tables.FindUserByEmail | backend/src/controllers/auth.controller.js:81-89 | the row found has the email asked for; none is found exactly when the email is unused |
| Tables.FindStore | backend/src/controllers/ratings.controller.js:160-166 | the row found has the store id; none is found exactly when no store has it |
| Crypto.Hash | backend/src/controllers/auth.controller.js:48 | a digest records the salt it was made with |
| Crypto.HashMatchesExactly | backend/src/controllers/auth.controller.js:91-95 | the password a digest was made from matches it, and no other password does |
| Text.Lower | frontend/src/pages/User/StoreList.jsx:80-84 | lower-casing keeps the length and lower-cases each ASCII letter in place |
| Text.LowerHasNoUpper | frontend/src/pages/User/StoreList.jsx:80-84 | no upper-case ASCII letter is left after lower-casing |
| Text.IncludesIffOccurs | frontend/src/pages/User/StoreList.jsx:82-83 | `includes` holds exactly when the needle occurs at some position of the text |
| Text.IncludesEmpty | frontend/src/pages/User/StoreList.jsx:80-84 | the empty search text is included in every string |
| Text.IncludesSelf | frontend/src/pages/User/StoreList.jsx:80-84 | a string includes itself |
| Seqs.FilterIsSubsequence | frontend/src/pages/Admin/AdminDashboard.jsx:70-72 | a filter keeps exactly the elements that pass, in their original order |
| Seqs.FilterKeepsPairwise | backend/src/controllers/stores.controller.js:100-103 | an order between all pairs of elements survives filtering |
| Seqs.Map | frontend/src/pages/Admin/AdminDashboard.jsx:8-22 | `map` keeps the length and puts each element's image at its position |
| Seqs.Reverse | backend/src/controllers/stores.controller.js:103 | the reversed table has the same length, with element i taken from position \|s\|-1-i |
| Validation.PasswordAcceptedIff | backend/src/controllers/admin.controller.js:67-73 | the scanning check accepts a password exactly when it has 8..16 characters, all letters, digits or `!@#$%^&*`, at least one upper-case letter and at least one special character |
| Validation.AllPasswordCharsIff | backend/src/controllers/admin.controller.js:67 | the character scan holds exactly when every character is allowed |
| Validation.HasUpperIff | backend/src/controllers/admin.controller.js:67 | the upper-case scan holds exactly when some character is upper-case |
| Validation.HasSpecialIff | backend/src/controllers/admin.controller.js:67 | the special-character scan holds exactly when some character is one of `!@#$%^&*` |
| Validation.NoUpperRefused | backend/src/controllers/admin.controller.js:67-73 | a password of only lower-case letters and digits is refused |
| Validation.NoSpecialRefused | backend/src/controllers/admin.controller.js:67-73 | a password of only letters and digits is refused |
| Validation.JsLength | backend/src/controllers/admin.controller.js:55 | a string's JavaScript length, in UTF-16 code units, lies between its character count and twice that, and is 0 only for the empty string |
| Validation.BmpLength | backend/src/controllers/admin.controller.js:55 | text below U+10000 has one code unit per character |
| Validation.AstralLength | backend/src/controllers/admin.controller.js:55 | text above U+FFFF, such as emoji, has two code units per character |
| Validation.UserFieldsCheck | backend/src/controllers/auth.controller.js:12-37 | the fields pass exactly when the name, email, password and address are all valid; otherwise the first failing check, in the source's order (name, email, password, address), names the error |
| Validation.StoreFieldsCheck | backend/src/controllers/admin.controller.js:130-146 | the same for a store's name, email and address, in that order |
| Validation.LengthBoundaries | backend/src/controllers/admin.controller.js:55-79 | counted in UTF-16 code units as `.length` counts: names of 20 and 60 units pass and 19 and 61 fail; an address of 400 units passes, while 401 and the empty address fail |
| Validation.BmpBoundaries | backend/src/controllers/admin.controller.js:55-79 | for text below U+10000, a name is accepted exactly with 20..60 characters and an address exactly with 1..400 |
| Validation.AstralBoundaries | backend/src/controllers/admin.controller.js:55-79 | for text of emoji and other characters above U+FFFF, a name is accepted exactly with 10..30 characters and an address exactly with 1..200 |
| Validation.PasswordSamples | backend/src/controllers/admin.controller.js:67-73 | `Secret#123` is accepted and `Sec#1` is refused |
| Averages.SumAppend | backend/src/controllers/ratings.controller.js:188-195 | the sum of a concatenation is the sum of the parts |
| Averages.SumInScale | backend/src/controllers/ratings.controller.js:188-195 | n values on the 1..5 scale sum to between n and 5n |
| Averages.RoundHalfAway | backend/src/controllers/ratings.controller.js:189 | the rounded quotient is within half a unit of n/d, ties going away from zero |
| Averages.RoundedAverage | backend/src/controllers/ratings.controller.js:188-195 | 0 for no values; otherwise the mean in hundredths, within half a hundredth |
| Averages.RoundedAverageInScale | backend/src/controllers/ratings.controller.js:188-195 | ratings on the 1..5 scale average to between 1.00 and 5.00 |
| Averages.RoundedAverageSamples | backend/src/controllers/ratings.controller.js:188-195 | [3,5] averages to 4.00, [1,2] to 1.50, [1,1,2] to 1.33 and [1,2,2] to 1.67 |
| Averages.Mean | frontend/src/pages/User/StoreList.jsx:89-95 | the mean times the count is the sum |
| Averages.MeanInScale | frontend/src/pages/User/StoreList.jsx:89-95 | values on the 1..5 scale have a mean between 1 and 5 |
| Averages.RoundedAverageNearMean | backend/src/controllers/stores.controller.js:15 | the server's rounded hundredths are within half a hundredth of the exact mean the client computes |
| Averages.QuotientBounds | frontend/src/pages/User/StoreList.jsx:89-95 | a quotient inherits bounds from its numerator |
| Ledger.FindPair | backend/src/controllers/ratings.controller.js:65-74 | the row found rates that store by that user; none is found exactly when no row does |
| Ledger.FindPairUnique | backend/src/controllers/ratings.controller.js:28-36 | with the unique (user, store) constraint, the row found is the only row of the pair |
| Ledger.SetRating | backend/src/controllers/ratings.controller.js:76-81 | the same rows in the same order; the pair's rows get the new value and every other row is unchanged |
| Ledger.UpsertStoresValue | backend/src/controllers/ratings.controller.js:28-36 | after the upsert the pair has exactly one row, holding the new value, under its old id or the fresh one |
| Ledger.UpsertKeepsOtherPairs | backend/src/controllers/ratings.controller.js:28-36 | the upsert leaves every other pair's rows as they were |
| Ledger.SetRatingKeepsOtherPairs | backend/src/controllers/ratings.controller.js:76-81 | the UPDATE leaves every other pair's rows as they were |
| Ledger.UpsertIdempotent | backend/src/controllers/ratings.controller.js:28-36 | submitting the same rating twice leaves the table as one submission does |
| Ledger.UpsertKeepsInvariants | backend/src/controllers/ratings.controller.js:28-36 | the upsert keeps (user, store) unique and ids ascending when the fresh id exceeds every id |
| Ledger.SetRatingRewritesPair | backend/src/controllers/ratings.controller.js:76-81 | the UPDATE turns the pair's one row into that row with the new value, and keeps every other pair |
| Ledger.SetRatingKeepsInvariants | backend/src/controllers/ratings.controller.js:76-81 | the UPDATE keeps (user, store) unique and ids ascending |
| Ledger.RemoveIdEffect | backend/src/controllers/ratings.controller.js:117 | no row with the id remains; every other row stays, in order; exactly one row goes if one had the id |
| Ledger.RemoveIdKeepsInvariants | backend/src/controllers/ratings.controller.js:117 | the DELETE keeps (user, store) unique and ids ascending |
| Ledger.StoreAverageRange | backend/src/controllers/ratings.controller.js:188-195 | a store's average is 0 without ratings and 1.00..5.00 with some |
| Ledger.UpsertNewPairCounts | backend/src/controllers/ratings.controller.js:28-36 | a first rating adds one row, the new value, to its store's ratings and none to any other store's |
| Backend.RatingsOkUpsert | backend/src/controllers/ratings.controller.js:28-36 | the upsert with the next serial id keeps the ratings table's constraints |
| Backend.RatingsOkAppend | backend/src/controllers/ratings.controller.js:28-36 | a first rating of a pair, appended under the next serial id, keeps the ratings table's constraints |
| Backend.RatingsOkSetRating | backend/src/controllers/ratings.controller.js:76-81 | the UPDATE keeps the ratings table's constraints |
| Backend.RatingsOkRemoveId | backend/src/controllers/ratings.controller.js:117 | the DELETE keeps the ratings table's constraints |
| Backend.RatingsOkNewStore | backend/src/controllers/admin.controller.js:175-189 | a new store does not break the ratings table's constraints |
| Backend.StoresOkNewStore | backend/src/controllers/admin.controller.js:149-189 | a store with an unused email, the next id and an owner or none keeps the stores table's constraints |
| Backend.UsersOkNewUser | backend/src/controllers/auth.controller.js:39-67 | a user with an unused email, a known role and the next id keeps the users table's constraints |
| Backend.StoresOkOwnersKept | backend/src/controllers/user.controller.js:40-42 | a change that keeps every user's id and role keeps each store owner an owner |
| Backend.UsersOkSetPassword | backend/src/controllers/user.controller.js:40-42 | a password change keeps the users table's constraints |
| Backend.SetPasswordChangesOneField | backend/src/controllers/user.controller.js:40-42 | the password change rewrites the password of the rows with that id and nothing else |
| Backend.NewPasswordMatches | backend/src/controllers/user.controller.js:40-42 | after the change the new password matches the row's digest and no other password does |
| Backend.Database.constructor | backend/src/controllers/auth.controller.js:48-67 | an empty database whose serials all start at 1 |
| Backend.Database.AddRating | backend/src/controllers/ratings.controller.js:4-46 | 403 for non-users, 400 for a missing or off-scale value, 404 for an unknown store; otherwise 201, the tables become the upsert with the next serial, and the reply row is the pair's row |
| Backend.Database.UpdateRating | backend/src/controllers/ratings.controller.js:49-91 | 403, 400, and 404 when the pair has no rating; otherwise 200, only the pair's row changes, to the new value, and that row is sent back; on failure nothing changes |
| Backend.Database.DeleteRating | backend/src/controllers/ratings.controller.js:94-124 | 403 for non-users; 200 exactly when a row with that id belongs to the caller, and then that id is removed; a user's other requests get 404 and change nothing |
| Backend.Database.AddUser | backend/src/controllers/admin.controller.js:41-118 | 403 for non-admins, 400 for an unknown role, then the field checks and the email check; 201 exactly when all of them pass, and then one row with the next id, a digest of the password and the given role is appended |
| Backend.Database.Register | backend/src/controllers/auth.controller.js:8-74 | the field checks, then 400 for a used email; on 201 one row with role `user` is appended |
| Backend.Database.InsertUser | backend/src/controllers/auth.controller.js:39-67 | the shared tail of both user-creating handlers: 400 for a used email, else the appended row |
| Backend.Database.AddStore | backend/src/controllers/admin.controller.js:121-194 | 403, the store field checks, 400 for a used email or an owner_id that is not an owner; on 201 one store with the next id is appended, ownerless when no owner_id is given |
| Backend.Database.UpdatePassword | backend/src/controllers/user.controller.js:6-53 | 400 for a weak new password, 404 for an unknown caller, 400 for a wrong old password; on 200 only that user's digest changes |
| Accounts.Login | backend/src/controllers/auth.controller.js:77-123 | 404 exactly when the email is unused; 401 exactly when the first row with it does not match the password; otherwise the claims are that row's id and role and the body is that row without its password |
| Accounts.Profile | backend/src/controllers/user.controller.js:56-77 | 404 exactly when no user has the caller's id; otherwise that user's row without its password |
| Accounts.FindAppendedEmail | backend/src/controllers/auth.controller.js:81-85 | a row appended under an unused email is the one a lookup by that email finds |
| Accounts.LoginAfterInsert | backend/src/controllers/auth.controller.js:48-116 | after registration, the sign-up password logs in with the new row's id and role, and any other password gets 401 |
| Accounts.LoginAfterPasswordChange | backend/src/controllers/user.controller.js:40-42 | after a password change, the new password logs in as the same user and any other password, the old one included, gets 401 |
| Reports.MyRatingRows | backend/src/controllers/ratings.controller.js:137-142 | at most one row per rating; with the store foreign key, exactly one per rating, in order, carrying its store's name |
| Reports.GetMyRatings | backend/src/controllers/ratings.controller.js:127-152 | 403 exactly for non-users; otherwise at most the caller's own ratings |
| Reports.GetMyRatingsExact | backend/src/controllers/ratings.controller.js:137-146 | with the store foreign key, the rows are exactly the caller's ratings, in table order, each with its id, value and its store's name |
| Reports.RaterRows | backend/src/controllers/ratings.controller.js:178-185 | with the user foreign key, one row per rating, in order, with the rater's id, name and email |
| Reports.StoreRatings | backend/src/controllers/ratings.controller.js:155-213 | 404 exactly for an unknown store; 403 exactly when an owner asks about a store that is not theirs; otherwise the store, its rounded average and the number of its ratings |
| Reports.StoreRatingsTotals | backend/src/controllers/ratings.controller.js:188-208 | the reported count is the number of listed rows, and the average is 0 or between 1.00 and 5.00 |
| Reports.MyStoreRatings | backend/src/controllers/stores.controller.js:125-177 | 403 exactly for non-owners; 404 exactly when the owner owns no store; otherwise the first owned store with its rounded average and its raters |
| Reports.MyStoreIsStoreReport | backend/src/controllers/stores.controller.js:142-172 | an owner's report holds the same average and count as the per-store report for that store |
| Reports.MyStoreIsFirstOwned | backend/src/controllers/stores.controller.js:133-142 | the reported store is the first store in table order whose owner_id is the caller |
| Reports.FirstOwned | backend/src/controllers/stores.controller.js:133-142 | the first owned store in table order heads the owned list |
| Reports.RatingRows | backend/src/controllers/stores.controller.js:92-115 | one row per rating whose user and store exist, in order, with the rating's fields and both names |
| Reports.AllRatings | backend/src/controllers/stores.controller.js:88-122 | at most one row per rating |
| Reports.AllRatingsDescending | backend/src/controllers/stores.controller.js:103 | the rows come in strictly decreasing id order |
| Reports.AllRatingsComplete | backend/src/controllers/stores.controller.js:92-115 | with both foreign keys, every rating is listed, the newest first |
| Reports.JoinedKeepsAll | backend/src/controllers/stores.controller.js:100-102 | with both foreign keys holding, the two inner joins drop no rating |
| Reports.StoresWithAverages | backend/src/controllers/stores.controller.js:9-30 | one row per store in table order, with the store's fields and its rounded average |
| Reports.StoresListedOnce | backend/src/controllers/admin.controller.js:255-276 | the rows' ids are strictly ascending; each rating is 0 without ratings and 1.00..5.00 with some |
| Reports.AdminStores | backend/src/controllers/admin.controller.js:245-283 | 403 exactly for non-admins; otherwise one row per store |
| Reports.PublicStores | backend/src/controllers/stores.controller.js:7-37 | one row per store, for any caller |
| Reports.PublicStoresUngated | backend/src/controllers/stores.controller.js:7-32 | the admin list equals the public list for admins and is 403 for everyone else |
| Reports.OwnerAverage | backend/src/controllers/admin.controller.js:216-229 | 0 when the owner's stores have no ratings |
| Reports.OwnerAverageRange | backend/src/controllers/admin.controller.js:216-229 | an owner's average is 1.00..5.00 when the owner's stores have ratings |
| Reports.OwnerOfOneStore | backend/src/controllers/admin.controller.js:216-229 | the average of an owner of exactly one store is that store's average |
| Reports.ListUsers | backend/src/controllers/admin.controller.js:206-235 | one row per user in table order, without passwords; owners carry an average and nobody else does |
| Reports.GetUsers | backend/src/controllers/stores.controller.js:40-85 | 403 exactly for non-admins; otherwise one row per user |
| Reports.ListUsersAverages | backend/src/controllers/admin.controller.js:213-235 | a non-owner is listed as the plain view; an owner's average lies on the scale |
| Reports.DashboardData | backend/src/controllers/admin.controller.js:7-38 | 403 exactly for non-admins; otherwise the three counts are the three table sizes and the lists are the tables without passwords or owner ids |
| Reports.OwnerRows | backend/src/controllers/admin.controller.js:294-296 | one row per owner, in table order, with that owner's id and name; every owner appears and every row is an owner |
| Reports.OwnerRowsAscending | backend/src/controllers/admin.controller.js:294-296 | with ids ascending in the table, the owner rows come in strictly ascending id order, each owner once |
| Reports.StoreOwners | backend/src/controllers/admin.controller.js:286-303 | 403 exactly for non-admins; otherwise the body is the owner rows |
| StoreList.FromServer | frontend/src/pages/User/StoreList.jsx:25-26 | one entry per fetched row, with the same fields |
| StoreList.FindMine | frontend/src/pages/User/StoreList.jsx:34-36 | the entry found is the user's for that store and no earlier one is; none is found exactly when no entry is |
| StoreList.ReplaceRating | frontend/src/pages/User/StoreList.jsx:47-52 | the same entries in order; the ones with the id get the new value and the rest are unchanged |
| StoreList.UpdateReplacesOneEntry | frontend/src/pages/User/StoreList.jsx:38-52 | with an existing entry, the list keeps its length and only that entry's value changes, to the reply's value |
| StoreList.AddAppendsOneEntry | frontend/src/pages/User/StoreList.jsx:53-71 | without an existing entry, exactly the server's row is appended, with the user's name |
| StoreList.SubmitShowsReply | frontend/src/pages/User/StoreList.jsx:32-74 | after a submission, the user's entry for the store holds the submitted value |
| StoreList.FindMineAt | frontend/src/pages/User/StoreList.jsx:34-36 | `find` returns the entry at the first matching position |
| StoreList.Toggled | frontend/src/pages/User/StoreList.jsx:201-204 | the edit button closes the store being edited and opens any other |
| StoreList.ToggleTwice | frontend/src/pages/User/StoreList.jsx:201-204 | pressing the same button twice restores the state when nothing or that store was open; otherwise it ends with nothing open |
| StoreList.FilteredStoresFacts | frontend/src/pages/User/StoreList.jsx:80-84 | a store is kept exactly when the lower-cased search occurs in its lower-cased name or address; order is kept; an empty search keeps all |
| StoreList.Enrich | frontend/src/pages/User/StoreList.jsx:86-106 | a store's entries, their count, their mean (none exactly when there are no entries) and the user's own rating: the rating of the first entry by that user for that store, a 0 shown as none |
| StoreList.EnrichedStores | frontend/src/pages/User/StoreList.jsx:86-107 | one enriched store per filtered store, in order |
| StoreList.MyRatingIsFirstMine | frontend/src/pages/User/StoreList.jsx:97-98 | the user's first entry among a store's entries is the one `handleRatingSubmit` looks up |
| StoreList.EnrichAfterSubmit | frontend/src/pages/User/StoreList.jsx:32-98 | after a submission, the enriched store shows the submitted value as the user's rating |
| StoreList.EnrichMeanInScale | frontend/src/pages/User/StoreList.jsx:89-95 | the mean shown lies between 1 and 5 when every entry is on the scale |
| StoreList.IsStarActive | frontend/src/pages/User/StoreList.jsx:168-169 | star n is lit exactly when the user has a rating of at least n |
| StoreList.LitStarsArePrefix | frontend/src/pages/User/StoreList.jsx:168-169 | if a star is lit, so is every lower star |
| StoreList.StoreListPage.constructor | frontend/src/pages/User/StoreList.jsx:11-14 | the page starts with no stores, no ratings, an empty search and nothing being edited |
| StoreList.StoreListPage.HandleRatingSubmit | frontend/src/pages/User/StoreList.jsx:32-78 | sends a PATCH when the user has an entry for the store, else a POST; on a reply the ratings list becomes the next list and editing closes; on failure nothing changes |
| StoreList.StoreListPage.ToggleEdit | frontend/src/pages/User/StoreList.jsx:200-205 | the edit state toggles for that store and nothing else changes |
| AdminDashboard.Label | frontend/src/pages/Admin/AdminDashboard.jsx:9-16 | "No ratings" exactly when no fetched rating is for the store; otherwise the mean times the count is the sum |
| AdminDashboard.EnrichStoresWithRatings | frontend/src/pages/Admin/AdminDashboard.jsx:7-23 | the same stores in the same order, each with its label |
| AdminDashboard.LabelInScale | frontend/src/pages/Admin/AdminDashboard.jsx:9-16 | a store's mean lies between 1 and 5 when the ratings are on the scale |
| AdminDashboard.FilteredUsersFacts | frontend/src/pages/Admin/AdminDashboard.jsx:70-72 | a user is kept exactly when the lower-cased search occurs in the lower-cased name; order is kept; an empty search keeps all |
| AdminDashboard.FilteredStoresFacts | frontend/src/pages/Admin/AdminDashboard.jsx:74-76 | the same for stores, on the store name only |
| AdminDashboard.SearchIgnoresCase | frontend/src/pages/Admin/AdminDashboard.jsx:70-72 | a search text and its lower-cased form keep the same users |
| Routes.PrivateRoute | frontend/src/routes/PrivateRoute.jsx:4-19 | renders the nested page exactly when a user is logged in with an allowed role; otherwise redirects to `/login` |
| Routes.PrivateRouteDependsOnRoleOnly | frontend/src/routes/PrivateRoute.jsx:7-18 | the decision depends only on whether a user is present and whether the role is allowed |
| Routes.VisitPath | frontend/src/App.jsx:22-48 | an unknown path matches no route; a public path renders its page; a guarded path gives the guard's outcome |
| Routes.PublicPaths | frontend/src/App.jsx:24-25 | the login and signup pages render for anyone |
| Routes.GuardedPathsAdmitOneRole | frontend/src/App.jsx:29-47 | a guarded path renders for exactly its one role and redirects everyone else, logged out or not, to `/login` |
| Routes.TableIsPublicOrSingleRole | frontend/src/App.jsx:24-47 | each path is public or guarded by the single role the admin, owner and user groups name |

## Left out

- The 500 replies of every handler are not modelled: database and library failures have no counterpart in the model.
- bcrypt is an ideal digest (`Crypto`). Matching succeeds exactly for the hashed password. The salt and the cost factor are parameters, not randomness.
- `validator.isEmail` is a predicate parameter of the field checks. Its grammar is not part of this model.
- Signing and verifying the JWT, cookies and logout are not modelled. A handler receives the token's claims as a `Caller` argument.
- The Express wiring is not modelled: routers, the auth middleware and request parsing. Each handler is a member called with the parsed fields.
- The concurrent `Promise.all` fan-out in the two `getUsersController`s is modelled as a sequential map. Concurrency is not modelled, and neither is the race between the email check and the insert; the email check is taken as atomic with the insert.
- The client's `toFixed(1)` formatting of averages is not modelled; the label carries the exact real mean.
- Case folding is ASCII only. Unicode `toLowerCase` is not modelled. String lengths are JavaScript's UTF-16 code units (`Validation.JsLength`). The password pattern has no `u` flag, and every character it admits is ASCII, so its length bound counts characters.
- A rating value is an optional integer. Non-integer numbers, strings that PostgreSQL would coerce, and other JSON shapes are not modelled.
- Body fields the handlers read are strings the caller supplies. An absent field is modelled only where the source tests for it (the rating and `owner_id`).
- Queries without `ORDER BY` return their rows in table order.
- The users foreign key of `ratings` is not enforced by the model. `Reports.StoresReferenced` and `Reports.UsersReferenced` are hypotheses of the lemmas that need them.
- Fetching on the client (`fetchStoresAndRatings` and the request itself) and the forms and their local state are not modelled. The server's reply to a rating submission is a parameter of `HandleRatingSubmit`.
- The client entry keeps `store_name` for an appended rating as absent, since the page never reads it.
- React Router matching is modelled as exact path lookup in the table of `App`. The nested layout routes are modelled only by their `PrivateRoute` guard, and the `user` that `App` reads from `useAuth` without using it is not modelled.
- The other client pages are not part of this model: the owner dashboard, the forms for adding a user or store, the sign-up page and the password page.
