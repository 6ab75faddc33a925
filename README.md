# openfinances — a Dafny model of the authentication, session and money core

openfinances is a personal-finance application: an Express/Prisma server that keeps, per
user, transactions, categories and payment methods behind JWT authentication, and a React
client that shows a dashboard of them. This project models the parts of it that carry
logic, and proves what they promise:

- **Server sessions.** Access tokens are signed for fifteen minutes (`GenerateTokenProvider`).
  A login replaces the user's refresh sessions by one new thirty-day session
  (`GenerateRefreshTokenProvider`). A refresh looks that session up and checks its expiry
  (`RefreshTokenService`).
- **Server users.** Registration stores a bcrypt digest (`UserService.register`); login checks
  the password, issues the tokens and opens a session (`UserService.login`). Both controllers
  map these outcomes to HTTP statuses and set the session cookie.
- **Server guard.** The Bearer-header middleware `ensureAuthenticated` admits or rejects a request.
- **Per-user tables.** Transactions, categories and payment methods: listing by owner in their
  order, creating a row stamped with its owner, deleting a row scoped by owner, and the
  server's income/expense/balance summary.
- **Client session.** The axios request and response interceptors attach the token, refresh it
  once on a 401 and replay the request. `AuthProvider` keeps the logged-in flag.
- **Client money and text.** The dashboard summary and the per-bucket chart totals, the default
  chart granularity, the avatar initials, and the new-transaction dialog (its guard, its sign
  rule and its reset).

Persistence is maps keyed by id in classes whose methods update them. The clock is a
millisecond parameter. JWT and bcrypt are small symbolic stand-ins whose properties are
proved; the network is a function from request to answer.

Each module follows one source file:

| module | file |
|---|---|
| `Jwt` | JWT stand-in |
| `Bcrypt` | bcrypt stand-in |
| `JsText` | the JavaScript string built-ins used |
| `Store` | the Prisma rows and tables |
| `Ordering` | `orderBy` |
| `Money` | sums |
| `Http` | responses and cookies |
| `TokenProvider` | `GenerateTokenProvider.ts` |
| `RefreshTokenProvider` | `GenerateRefreshTokenProvider.ts` |
| `RefreshTokenService` | `refreshtoken.service.ts` |
| `EnsureAuthenticated` | `ensureAuthenticated.ts` |
| `UserService` | `user.service.ts` |
| `UserController` | `user.controller.ts` |
| `RefreshTokenController` | `refreshToken.controller.ts` |
| `TransactionService` | `transaction.service.ts` |
| `NamedService` | `category.service.ts` and `paymentMethod.service.ts` |
| `Browser` | `localStorage` and `window.location` |
| `ApiClient` | `api.ts` |
| `AuthContext` | `AuthContext.tsx` |
| `ClientSummary` | `calculateSummary` in the web `TransactionService.ts` |
| `Dashboard` | `DashboardPage.tsx` |
| `CreateTransactionDialog` | `CreateTransactionDialog.tsx` |

**Modelling choices**

- A JWT is the decimal fields of its claims, joined by '.', followed by the character codes of
  the signing key. Verification recovers the claims and compares the key, so a token verifies
  exactly under the key it was signed with.
- A bcrypt digest records its cost, its salt and the key the password yields: the first 72
  bytes of the password's UTF-8 encoding. Comparison checks the key.
- Amounts are exact reals.
- Refresh-session ids are chosen among the unused non-empty strings.
- `Number(s)` is modelled for strings of decimal digits (and "") only.

## Model

| member | source | states |
|---|---|---|
| Jwt.VerifySigned | server/src/middlewares/ensureAuthenticated.ts:23 | verifying a signed token fails as "invalid signature" under any other key, as "expired" from its `exp` second on, and otherwise returns exactly the signed claims |
| Jwt.DecodeSign | server/src/provider/GenerateTokenProvider.ts:7-10 | decoding a signed token recovers its claims and its key |
| Jwt.SignedTokenShape | server/src/provider/GenerateTokenProvider.ts:7-10 | a signed token is non-empty and contains no space, so it survives a `split(" ")` |
| Bcrypt.CompareHash | server/src/services/user.service.ts:21-44 | `compare(attempt, hash(plain))` holds exactly when the attempt is the plaintext, or both are at least 72 UTF-8 bytes long and share their first 72 bytes |
| Bcrypt.ShortPasswordsExact | server/src/services/user.service.ts:21-44 | a password shorter than 72 bytes matches its digest and no other password does |
| Bcrypt.LongPasswordsTruncated | server/src/services/user.service.ts:21-44 | a password of at least 72 bytes, extended by anything, still matches the digest of the password |
| JsText.SplitJoin | server/src/middlewares/ensureAuthenticated.ts:19 | splitting a join of separator-free fields gives the fields back |
| JsText.JoinSplit | server/src/middlewares/ensureAuthenticated.ts:19 | joining the fields of a split gives the string back |
| JsText.SplitAtFirst | web/src/pages/dashboard/DashboardPage.tsx:136 | a split at the first separator yields the word before it followed by the split of the rest |
| JsText.DigitsValueOfNatToString | server/src/provider/GenerateTokenProvider.ts:8 | the value of the digits of `String(n)` is `n` |
| JsText.NumberOfNatToString | server/src/middlewares/ensureAuthenticated.ts:26 | `Number(String(n)) == n` for every natural number |
| JsText.Number | server/src/middlewares/ensureAuthenticated.ts:26 | `Number(s)` is finite exactly for a digit string and is 0 for "" |
| JsText.ParseFloatDecimal | web/src/components/dashboard/CreateTransactionDialog.tsx:48 | `parseFloat` of "i.f" followed by neither a digit nor an exponent mark reads the decimal i.f |
| JsText.ParseFloatOfNatToString | web/src/components/dashboard/CreateTransactionDialog.tsx:48 | `parseFloat(String(n)) == n` |
| JsText.ReplaceFirst | web/src/components/dashboard/CreateTransactionDialog.tsx:48 | `replace` keeps the length, changes only the first occurrence and puts the new character there |
| JsText.ReplaceFirstComma | web/src/components/dashboard/CreateTransactionDialog.tsx:48 | in "i,rest" with no comma in i, only the first comma becomes '.' |
| JsText.ToUpper | web/src/pages/dashboard/DashboardPage.tsx:140 | `toUpperCase` keeps the length, turns each lower-case letter into its capital, leaves no lower-case letter and changes no other character |
| Ordering.SortBy | server/src/services/transaction.service.ts:8 | the result is sorted by the order and is a permutation of the input |
| Ordering.Insert | server/src/services/category.service.ts:7 | inserting into a sorted sequence keeps it sorted and adds exactly the element |
| Ordering.LexLeTotal | server/src/services/category.service.ts:7 | name order compares every pair of names |
| Ordering.LexLeTransitive | server/src/services/category.service.ts:7 | name order is transitive |
| Money.SumOfPermutation | server/src/services/transaction.service.ts:30-44 | a sum does not depend on the order of the rows |
| Money.SumOfWhere | server/src/services/transaction.service.ts:36-44 | summing the rows a `where` keeps is summing a function that is zero on the others |
| Money.SumOfSplit | server/src/services/transaction.service.ts:30-50 | the sum of the parts of every amount is the sum of the parts' sums |
| Money.SumOfNegated | web/src/services/TransactionService.ts:41 | a sum of negations is the negated sum |
| Store.Listing | server/src/services/transaction.service.ts:6 | listing a table yields every row below the counter and nothing that is not a row |
| Store.Where | server/src/services/transaction.service.ts:7 | a filter keeps exactly the elements that satisfy it |
| Store.Owned | server/src/services/category.service.ts:6 | the owner filter keeps the rows of that owner and only those |
| Store.ListingHoldsTable | server/src/services/transaction.service.ts:6 | a table whose keys are below its counter is listed in full |
| Store.DeletedCount | server/src/services/transaction.service.ts:55-60 | `deleteMany`'s count is at most 1 and is the number of rows removed |
| Store.OwnedAfterInsert | server/src/services/transaction.service.ts:16-26 | after an insert the owner's listing gains exactly the new row and every other owner's listing is unchanged |
| Store.OwnedAfterDelete | server/src/services/paymentMethod.service.ts:19-26 | after an owner-scoped delete other owners' listings are unchanged, and the owner's loses at most the deleted row |
| Store.ByNameIsTotalPreorder | server/src/services/category.service.ts:7 | `orderBy: { name: 'asc' }` is a total preorder |
| TokenProvider.IssuerSecret | server/src/provider/GenerateTokenProvider.ts:3 | the issuer's secret is `JWT_SECRET` when set and non-empty, otherwise "sua_chave_secreta" |
| TokenProvider.GenerateToken | server/src/provider/GenerateTokenProvider.ts:6-12 | the token is non-empty and has no space, and it decodes to the claims for the user (subject `String(userId)`, fifteen minutes) and the signing key |
| TokenProvider.VerifyGeneratedToken | server/src/provider/GenerateTokenProvider.ts:6-12 | an issued token verifies under its own key with subject `String(userId)` for 900 s from its issue second; `Number(sub)` gives back `userId`; it fails under any other key |
| TokenProvider.GeneratedTokensIdentifyUser | server/src/provider/GenerateTokenProvider.ts:8 | tokens issued for different users differ, whatever the keys and the clocks |
| RefreshTokenProvider.Execute | server/src/provider/GenerateRefreshTokenProvider.ts:5-18 | the table becomes the old one without the user's sessions plus one new row for the user under a non-empty unused id, expiring thirty days after now, and that row is returned |
| RefreshTokenProvider.WithoutUser | server/src/provider/GenerateRefreshTokenProvider.ts:6 | after `deleteMany` the user owns no session |
| RefreshTokenProvider.ReplaceLeavesOneSession | server/src/provider/GenerateRefreshTokenProvider.ts:6-15 | after the replacement the user owns exactly the new session |
| RefreshTokenProvider.ReplaceKeepsOthers | server/src/provider/GenerateRefreshTokenProvider.ts:6 | other users' sessions are untouched and nothing else is added |
| RefreshTokenProvider.ReplaceTwice | server/src/provider/GenerateRefreshTokenProvider.ts:6-15 | after two logins the user owns only the second session and the first id is gone |
| RefreshTokenProvider.UnusedIdExists | server/src/provider/GenerateRefreshTokenProvider.ts:10-15 | some non-empty id is always unused, so an insert can always pick a fresh one |
| RefreshTokenService.Execute | server/src/services/refreshtoken.service.ts:6-25 | it succeeds exactly for a present and unexpired session, with a token for its owner; the error is "Refresh token invalid" for an unknown id (checked first) and "Refresh Token Expired" otherwise; the table is an argument and is not changed |
| RefreshTokenService.ExpiryBoundary | server/src/services/refreshtoken.service.ts:15 | an access at exactly the expiry second is accepted and one millisecond later is refused |
| RefreshTokenService.SessionHonouredForThirtyDays | server/src/services/refreshtoken.service.ts:15-24 | a session opened at a login is honoured up to thirty days later and refused after that |
| RefreshTokenService.ReplacedSessionInvalid | server/src/services/refreshtoken.service.ts:11-13 | a session replaced by a later login is an unknown id |
| EnsureAuthenticated.VerifierSecret | server/src/middlewares/ensureAuthenticated.ts:22 | the verifier's secret is `JWT_SECRET` when set and non-empty, otherwise "secret-development-key" |
| EnsureAuthenticated.SecondField | server/src/middlewares/ensureAuthenticated.ts:19 | the second space-separated field has no space in it, and a header without a space has no second field |
| EnsureAuthenticated.SecondFieldOf | server/src/middlewares/ensureAuthenticated.ts:19 | the second field of `scheme + " " + token` is the token, for space-free parts |
| EnsureAuthenticated.Authenticate | server/src/middlewares/ensureAuthenticated.ts:13-32 | a missing or empty header is 401 "Token missing"; a header without a second field or one that fails verification is 401 "Invalid token"; otherwise the request is admitted as `Number(sub)` |
| EnsureAuthenticated.IssuedTokenAdmitted | server/src/middlewares/ensureAuthenticated.ts:19-29 | a Bearer header with an issued token is admitted as its user while the token lives, and rejected afterwards |
| EnsureAuthenticated.ForeignTokenRejected | server/src/middlewares/ensureAuthenticated.ts:23-32 | a token signed with another key is rejected with "Invalid token" |
| EnsureAuthenticated.SchemeIgnored | server/src/middlewares/ensureAuthenticated.ts:19 | the word before the space is never checked |
| EnsureAuthenticated.BareTokenRejected | server/src/middlewares/ensureAuthenticated.ts:19-32 | a header without a space is rejected with "Invalid token" |
| EnsureAuthenticated.FallbackSecretsRejectIssuedTokens | server/src/middlewares/ensureAuthenticated.ts:22 | with `JWT_SECRET` unset, every token the issuer signs is rejected |
| EnsureAuthenticated.CorrectedSecretAdmitsIssuedTokens | server/src/provider/GenerateTokenProvider.ts:3 | with the issuer's fallback shared, issued tokens are admitted whether or not `JWT_SECRET` is set |
| EnsureAuthenticated.Handle | server/src/middlewares/ensureAuthenticated.ts:8-33 | with the verifier key computed as written: an admitted request gets `request.user` and one more call of `next`, and no status; a rejected one gets the status and message, and neither `request.user` nor `next` |
| UserService.FindByEmail | server/src/services/user.service.ts:13-15 | the user found has the email; when none is found, no row has it |
| UserService.FindByEmailFindsOwner | server/src/services/user.service.ts:36-38 | with unique emails, looking up a user's email finds that user |
| UserService.Register | server/src/services/user.service.ts:12-33 | an email in use fails with "User already exists" and changes nothing; otherwise the user is inserted under the next key with `hash(password, 8)` and returned without the password |
| UserService.RegisterKeepsTableValid | server/src/services/user.service.ts:23-29 | registering keeps keys below the counter and emails unique |
| UserService.CheckCredentials | server/src/services/user.service.ts:36-48 | login passes exactly for a known email with a matching password; both failures carry the same "Invalid credentials" |
| UserService.Login | server/src/services/user.service.ts:35-58 | on failure the session table is unchanged; on success it returns the user without password, a token for the user's id and the new session with a non-empty fresh id, which replaces the user's sessions |
| UserService.RegisterThenLogin | server/src/services/user.service.ts:12-48 | after registering, the registered email logs in exactly with the passwords bcrypt cannot tell from the registered one, and finds the new user |
| UserService.ShortPasswordLoginExact | server/src/services/user.service.ts:12-48 | a registered password shorter than 72 bytes is the only password that logs in |
| UserController.RegisterResponse | server/src/controllers/user.controller.ts:7-21 | success is 201 with the user; "User already exists" is 409; other errors are 500 |
| UserController.MaxAge | server/src/controllers/user.controller.ts:29-30 | a truthy `rememberMe` gives a 2 592 000 000 ms cookie; otherwise it is a session cookie |
| UserController.SessionCookie | server/src/controllers/user.controller.ts:29-37 | the `refreshToken` cookie holds the session id and is httpOnly, secure and sameSite=none; it has a max-age exactly for a truthy `rememberMe`, and that max-age is the session's thirty days |
| UserController.LoginResponse | server/src/controllers/user.controller.ts:26-50 | success is 200 with `{user, token}` and a cookie holding the session id; "Invalid credentials" is 401 "Invalid email or password." with no cookie; any other error is 500 "Internal server error" with no cookie |
| UserController.Register | server/src/controllers/user.controller.ts:7-21 | an email in use is 409 "Email already in use." and inserts nothing; otherwise 201 with the new user |
| UserController.Login | server/src/controllers/user.controller.ts:23-51 | bad credentials are 401 "Invalid email or password." with no cookie and no session change; success is 200 with an httpOnly, secure, sameSite=none `refreshToken` cookie naming, by a non-empty id, the user's one new session |
| RefreshTokenController.Handle | server/src/controllers/refreshToken.controller.ts:5-20 | an absent or empty cookie is 401 "Refresh token missing"; 200 with `{token}` exactly when the service succeeds; unknown and expired sessions both give 401 "Refresh token expired" |
| RefreshTokenController.RefreshAfterLogin | server/src/controllers/refreshToken.controller.ts:6-19 | the cookie of a login refreshes until its session expires and is refused after |
| RefreshTokenController.RefreshedTokenAdmitted | server/src/controllers/refreshToken.controller.ts:15-16 | with `JWT_SECRET` set, a refreshed token is admitted by the middleware as the session's owner for fifteen minutes |
| RefreshTokenController.CorrectedRefreshedTokenAdmitted | server/src/controllers/refreshToken.controller.ts:15-16 | with the corrected verifier fallback, a refreshed token is admitted for fifteen minutes whether or not `JWT_SECRET` is set |
| TransactionService.FindAll | server/src/services/transaction.service.ts:5-14 | the listing is newest first and is a permutation of the user's rows |
| TransactionService.FindAllHoldsOwnRows | server/src/services/transaction.service.ts:6-8 | a transaction is listed exactly when it is one of the user's rows |
| TransactionService.Create | server/src/services/transaction.service.ts:16-27 | the row is stored under the next key, stamped with the user, and no other row changes |
| TransactionService.CreateListsNewRow | server/src/services/transaction.service.ts:16-26 | the creator's listing gains the new row and other users' listings are unchanged |
| TransactionService.DeleteById | server/src/services/transaction.service.ts:54-61 | only the row with both the id and the user is removed; its count is 0 or 1 |
| TransactionService.DeleteListing | server/src/services/transaction.service.ts:54-61 | deleting leaves other users' listings unchanged and removes from the owner's exactly the deleted row |
| TransactionService.AggregatesByParts | server/src/services/transaction.service.ts:36-44 | the sums over `amount > 0` and `amount < 0` split the total, with signs fixed |
| TransactionService.GetSummary | server/src/services/transaction.service.ts:29-52 | the balance is income plus expense; income sums the positive amounts and expense the negative ones, so income >= 0 >= expense; the count is the number of the user's rows; all are 0 when there are none |
| NamedService.FindAll | server/src/services/category.service.ts:4-9 | the listing is in name order and is a permutation of the user's rows |
| NamedService.Create | server/src/services/category.service.ts:11-18 | the row with that name and owner is stored under the next key and no other row changes |
| NamedService.CreateListsNewRow | server/src/services/paymentMethod.service.ts:11-18 | the creator's listing gains the new row and other listings are unchanged |
| NamedService.DeleteById | server/src/services/paymentMethod.service.ts:19-26 | only the row with both the id and the user is removed |
| NamedService.DeleteListing | server/src/services/paymentMethod.service.ts:19-26 | another user's id is a no-op for every listing, and the owner's listing loses exactly that row |
| Browser.GetItem | web/src/lib/api.ts:11 | `getItem` is the stored value, or `null` when absent |
| ApiClient.Intercept | web/src/lib/api.ts:10-16 | the request keeps its path and retry mark; it carries `Bearer <token>` when a non-empty token is stored, and otherwise its own header or, failing that, the instance's default |
| ApiClient.Dispatch | web/src/lib/api.ts:19-45 | sending only appends to the log of sent requests, moves the browser nowhere but "/login", and resolves only with a 2xx answer |
| ApiClient.OnError | web/src/lib/api.ts:21-45 | the error handler only appends to the log of sent requests, moves the browser nowhere but "/login", and resolves only with a 2xx answer |
| ApiClient.SuccessPassesThrough | web/src/lib/api.ts:20 | a 2xx answer resolves unchanged |
| ApiClient.OtherFailuresRejected | web/src/lib/api.ts:24-44 | a non-401 failure, or a 401 on a retried request, rejects with that failure and sends no refresh |
| ApiClient.RefreshThenReplay | web/src/lib/api.ts:24-36 | a first 401, whatever its body, sends one refresh; a token is stored, set on the request and the defaults, and the retried request is replayed |
| ApiClient.RefreshFailureLogsOut | web/src/lib/api.ts:38-44 | after a first 401, a refused refresh drops the token, goes to "/login" and rejects with the original 401 |
| ApiClient.TokenlessRefreshRejected | web/src/lib/api.ts:30-44 | after a first 401, a refresh without a token rejects with the original 401 and replays nothing |
| ApiClient.RefreshLoopNeverEnds | web/src/lib/api.ts:28 | as written, a refused refresh triggers another refresh, without end |
| ApiClient.ExpiredSessionNeverSettles | web/src/lib/api.ts:24-28 | as written, a 401 while refreshes are refused never settles |
| ApiClient.CorrectedAlwaysSettles | web/src/lib/api.ts:24-25 | with the refresh marked retried, every request settles |
| ApiClient.RetriedSettles | web/src/lib/api.ts:24 | a request already marked retried settles after one send |
| ApiClient.Request | web/src/lib/api.ts:10-44 | sending on the browser and instance objects ends in exactly the state and outcome of the functional model |
| ApiClient.HandleError | web/src/lib/api.ts:21-45 | the error handler on the objects ends in exactly the state and outcome of the functional model |
| AuthContext.AuthProvider.constructor | web/src/contexts/AuthContext.tsx:14-15 | the provider starts unauthenticated and loading |
| AuthContext.AuthProvider.CheckAuth | web/src/contexts/AuthContext.tsx:21-25 | authenticated exactly when "isLogged" is stored as "true", and no longer loading |
| AuthContext.AuthProvider.Login | web/src/contexts/AuthContext.tsx:27-30 | sets "isLogged" to "true" and nothing else in storage; authenticated |
| AuthContext.AuthProvider.Logout | web/src/contexts/AuthContext.tsx:32-35 | removes "isLogged" and nothing else; unauthenticated |
| AuthContext.LoginSurvivesReload | web/src/contexts/AuthContext.tsx:21-35 | the stored flag reads as logged in after `login` and as logged out after `logout` |
| AuthContext.ReloadAfterLogin | web/src/contexts/AuthContext.tsx:17-30 | a reload after `login` ends authenticated |
| AuthContext.ReloadAfterLogout | web/src/contexts/AuthContext.tsx:17-35 | a reload after `logout` ends unauthenticated |
| ClientSummary.CalculateSummary | web/src/services/TransactionService.ts:36-44 | income is the sum of the positive amounts, expense the sum of the magnitudes of the others, both >= 0; balance is income − expense, which is the plain sum of all amounts |
| ClientSummary.ClientAgreesWithServer | web/src/services/TransactionService.ts:36-44 | over the server's listing, in any order, the client's income and balance equal the server's and its expense is the server's with the sign flipped |
| ClientSummary.SummaryOrderInvariant | web/src/services/TransactionService.ts:39-42 | reordering the transactions leaves the totals unchanged |
| Dashboard.DefaultGranularity | web/src/pages/dashboard/DashboardPage.tsx:99-103 | month granularity exactly for the year scope, day granularity for week and month |
| Dashboard.ChartSettings.constructor | web/src/pages/dashboard/DashboardPage.tsx:60-62 | the chart starts on this month, by day, showing the balance |
| Dashboard.ChartSettings.SelectScope | web/src/pages/dashboard/DashboardPage.tsx:99-103 | a new scope resets the granularity to its default; reselecting the current scope keeps a hand-picked granularity |
| Dashboard.ChartSettings.SelectGranularity | web/src/pages/dashboard/DashboardPage.tsx:333-338 | the picked granularity is set and the scope and chart type are kept; it is offered on the month and year charts only, months on the year chart only, and the week chart stays by day |
| Dashboard.ChartSettings.SelectChartType | web/src/pages/dashboard/DashboardPage.tsx:348 | the chart type is set and the scope and granularity are kept |
| Dashboard.Initials | web/src/pages/dashboard/DashboardPage.tsx:134-141 | the initials have at most two characters |
| Dashboard.InitialsOfTwoWords | web/src/pages/dashboard/DashboardPage.tsx:134-141 | the initials are the upper-cased first characters of the first two words, an empty word giving none, and later words are ignored |
| Dashboard.InitialsOfOneWord | web/src/pages/dashboard/DashboardPage.tsx:134-141 | a single word gives its upper-cased first character |
| Dashboard.InitialsOfJohnDoeSmith | web/src/pages/dashboard/DashboardPage.tsx:134-141 | "john doe smith" gives "JD" |
| Dashboard.InitialsOfDoubleSpace | web/src/pages/dashboard/DashboardPage.tsx:136-139 | "Ann  Lee" gives "A" |
| Dashboard.Total | web/src/pages/dashboard/DashboardPage.tsx:194 | income for "income", expense for "expense", and the balance for any other chart type |
| Dashboard.Bucket | web/src/pages/dashboard/DashboardPage.tsx:164-179 | a bucket holds exactly the transactions that pass the calendar test for its data point |
| Dashboard.PointFor | web/src/pages/dashboard/DashboardPage.tsx:181-195 | an entry's income and expense are the bucket's positive amounts and magnitudes of the rest, both >= 0; its balance is their difference and its total is the selected one |
| Dashboard.ChartData | web/src/pages/dashboard/DashboardPage.tsx:144-197 | no transactions give no entries; otherwise there is one entry per data point, in order |
| Dashboard.ChartAddsUpToSummary | web/src/pages/dashboard/DashboardPage.tsx:161-193 | when each transaction lies in exactly one bucket, the entries' incomes and expenses add up to the summary's |
| Dashboard.HandleLogout | web/src/pages/dashboard/DashboardPage.tsx:126-131 | logging out removes "token", "user" and "isLogged", unauthenticates the provider and goes to "/login" |
| CreateTransactionDialog.FinalAmount | web/src/components/dashboard/CreateTransactionDialog.tsx:48 | the amount is NaN exactly when the text with its first comma made a point is; otherwise it is that reading, negated for an expense |
| CreateTransactionDialog.CommaIsDecimalPoint | web/src/components/dashboard/CreateTransactionDialog.tsx:48 | "i,f" is read as the decimal i.f; text after the fraction that is neither a digit nor an exponent mark, a second comma included, is ignored |
| CreateTransactionDialog.ExpenseNegatesIncome | web/src/components/dashboard/CreateTransactionDialog.tsx:48 | an expense is the same text read as income, negated |
| CreateTransactionDialog.SignFollowsType | web/src/components/dashboard/CreateTransactionDialog.tsx:48 | with no '-' in the text, income is sent >= 0 and expense <= 0 |
| CreateTransactionDialog.Suppressed | web/src/components/dashboard/CreateTransactionDialog.tsx:82-86 | no suppressed key is a digit, a comma or a point, so a plain decimal amount can still be typed |
| CreateTransactionDialog.TypeKeys | web/src/components/dashboard/CreateTransactionDialog.tsx:82-86 | typing adds no suppressed key |
| CreateTransactionDialog.TypedAmountUnsigned | web/src/components/dashboard/CreateTransactionDialog.tsx:82-86 | text typed into the field has no 'e', 'E', '+' or '-', so its sign follows the type |
| CreateTransactionDialog.TransactionForm.Request | web/src/components/dashboard/CreateTransactionDialog.tsx:50-56 | the body carries the description, the signed amount, the date and the ids read with `Number` |
| CreateTransactionDialog.TransactionForm.constructor | web/src/components/dashboard/CreateTransactionDialog.tsx:29-40 | the dialog starts closed and idle, with an empty expense form dated now |
| CreateTransactionDialog.TransactionForm.ResetForm | web/src/components/dashboard/CreateTransactionDialog.tsx:68-75 | restores type expense, a fresh date and empty description, amount, category and payment method; nothing else changes |
| CreateTransactionDialog.TransactionForm.HandleSubmit | web/src/components/dashboard/CreateTransactionDialog.tsx:42-66 | with no date, amount, category or payment method nothing is sent and nothing changes; otherwise the form's body is sent; success closes the dialog, runs `onSuccess` once and resets; failure keeps the form; loading ends false |

## Left out

- Real cryptography: `jsonwebtoken` and `bcryptjs` are symbolic stand-ins. A forged or colliding token, a colliding digest, and bcrypt's randomness are not modelled.
- Bcrypt.Compare: the 72-byte cut is modelled, but not the rest of bcrypt's key schedule (a closing zero byte, and the key repeated to fill 72 bytes). For passwords that contain the character U+0000, that repetition can make two different passwords shorter than 72 bytes agree; the model keeps them apart.
- Prisma, the database and SQL. Tables are maps, unique ids are a counter, and a refresh-session id is any unused non-empty string.
- Concurrency: the delete-then-insert of `GenerateRefreshTokenProvider.ts:6-15` is not atomic, so two concurrent logins can both keep a session. Operations are modelled one at a time, and so is the `Promise.all` loading of the dashboard.
- Calendar arithmetic: `dayjs().add(30, "days")` is taken as 30 × 86 400 s, ignoring daylight-saving changes.
- Chart calendar: the date-fns scope bounds, the data points and the bucket tests of `DashboardPage.tsx:147-179` are parameters, and so are the labels the filter sets.
- Floating point: amounts are exact reals, so JavaScript's rounding in sums, `-0` and `Intl.NumberFormat` are not modelled.
- JsText.Number: only digit strings (and "") are read; signs, decimals, white space and hexadecimal forms give NaN here.
- JsText.ParseFloat: exponents and "Infinity" are not read.
- CreateTransactionDialog.FinalAmount: the amount field is an `<input type="number">` (`CreateTransactionDialog.tsx:154`). The model reads the raw text typed into it; the browser's value sanitising, which decides whether a text such as "12,50" reaches the submit handler at all, is not modelled.
- JsText.ToUpper: only ASCII letters are upper-cased; other scripts, and characters outside the basic plane in `n[0]`, are not modelled.
- Ordering.LexLe: names are compared by character code, not by the database's collation.
- `findAll` also returns each transaction's category and payment-method names (`transaction.service.ts:9-12`). These joins are not modelled.
- Glue controllers are not modelled. Their mismatches are noted here:
  - `category.controller.ts:18` passes a colour that `CategoryService.create` ignores;
  - `category.controller.ts:26` calls a `deleteById` that `CategoryService` does not define;
  - `transaction.controller.ts:7` takes the user from a `userid` header that defaults to 1.
- The web `createCategory` (`TransactionService.ts:55-58`) sends only the name, so the colour chosen in the manage dialog is dropped. It is not modelled.
- `user.service.ts:9` declares a secret that nothing uses.
- Request validation (the zod schemas), Express routing, cookies parsing, and the React rendering.
- The network: the server is a pure function from the request sent to its answer. Its state changes between requests, and timeouts, are not modelled.
- ApiClient.Dispatch: the interceptor chain is bounded by a fuel count. Running out answers `Exhausted`, which is how a chain that never settles is shown.
- ApiClient: a replay that rejects is not caught by the handler's `catch`, because `return api(originalRequest)` returns the promise without awaiting it. The model follows that and does not log out after a failed replay.
- Dashboard.ChartAddsUpToSummary: assumes every transaction lies in exactly one bucket. A transaction outside the scope is in no bucket and is not charted.

## Findings

| source | as written | input that shows it | evidently intended | confidence | as-written member | corrected member |
|---|---|---|---|---|---|---|
| server/src/middlewares/ensureAuthenticated.ts:22 | the verifier falls back to "secret-development-key", while the issuer (`GenerateTokenProvider.ts:3`) falls back to "sua_chave_secreta" | `JWT_SECRET` unset: every token issued at login or refresh is answered 401 "Invalid token" | both sides use one fallback secret | not executed | EnsureAuthenticated.FallbackSecretsRejectIssuedTokens | EnsureAuthenticated.CorrectedSecretAdmitsIssuedTokens |
| web/src/lib/api.ts:28 | the refresh POST goes through the same `api` instance, so its own 401 reaches the handler with `_retry` unset and triggers another refresh | an expired or missing refresh cookie: the server answers every refresh with 401 and the client keeps refreshing | the refresh request is marked retried (or sent outside the interceptor), so its 401 logs out | not executed | ApiClient.RefreshLoopNeverEnds | ApiClient.CorrectedAlwaysSettles |
