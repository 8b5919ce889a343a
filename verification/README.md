# A verified model of the rate limiter, the account and todo store, and the comma lists

Three parts of the service keep promises that no single function shows. This project
models them in Dafny and proves the promises for every input, every run and every
interleaving. `dafny verify dfyconfig.toml` checks everything.

**The per-IP rate limiter.** `TokenBucket` is the limiter's contract in exact integers,
`RateLimit` the map of buckets with idle eviction where reading a key's stamp and deleting
the key are one step, `RateLimitSplit` the same with every step on its own, `Middleware`
the object with the counter and the timer that trigger sweeps, `TriggeredEviction` the
exact condition under which those sweeps never show, `Windows` what a stretch of time can grant
when they do, `RouterConfig` the settings the router computes. The main result is an exact one, for sweeps at any moments and for those
the middleware triggers itself: eviction never changes an answer if and only if
`burst * 10^9 <= rps * (idle + 1)`, idle in nanoseconds. With split steps no setting hides
eviction, and the cost of each deletion is bounded instead.

**Accounts and todos.** `Schema` has the five tables and what their constraints say,
`Statements` and `Bulk` the SQL statements, `Services` each service call as a program
of atomic steps with a program counter, `Interleaving` any number of calls in flight.
`Removal`, `Registration`, `Isolation` and `Patches` prove what holds over all
interleavings, `Answers` that what a call answers is what it has done, `Contention` which refusal a registration gets, `Passwords` which passwords
bcrypt cannot tell apart. `Aggregate` compares the one-query user with the three-query
user. `Database` and `ServiceObjects` are the same code as objects that change their
fields in place, proved equal to the statements and to the step programs run alone;
`Solo` proves that a program run alone is one of the interleavings.

**Comma lists.** `CommaList` has the parser of list settings and the printer of the CORS
header.

## Reading the model

- Tokens are integer nano-tokens, times integer nanoseconds, so a second of `rps` is
  exactly `rps` tokens. A clock reading before a limiter's last one counts as no time
  passed. Runs have non-decreasing times where a statement needs it and says so.
- In `RateLimit` and `Middleware` one request reads the clock once. In `RateLimitSplit`
  every step has its own time, entries are shared heap cells, a request may still use a
  cell whose key is gone, and sweeps of any number may start and stall anywhere. The
  counter and the timer are left out there, which allows more sweeps than the code does.
- `gen_random_uuid()` is a parameter that is never an id issued before, and never one the
  same statement names. The tables keep the issue order; it is the measure along which
  `created_by` goes down.
- bcrypt keys its cipher with 72 bytes: the password and a closing NUL, over and over. That
  is modelled; that two keys never give one hash under one salt is assumed. A character
  of a password stands for a byte, and hashing may refuse a password.
- A JWT is a record (user id, e-mail, expiry) that only the service can make; it is
  refused from its expiry on, as section 4.1.4 of RFC 7519 asks.
- Statements about runs start from any state that satisfies `Interleaving.Inv`, which every
  reachable state does (`Interleaving.RunKeeps`), or from a freshly started service.
- One SQL statement is one atomic step and fails only for what the schema says: no row,
  uniqueness, a foreign key. Uniqueness is checked before foreign keys. Transient
  failures do not happen, but any call may stop for ever between two steps.
- The roles table does not change while the service runs: no service call writes it. No row
  has the all-zero id, so an unset cache and a zero id are the same.

## Where the code and its comments differ

- The router says the limiter is off when the rate is not positive; the code tests
  `Requests`, and a rate below one becomes one (internal/router/router.go:309-320). The
  steady rate is therefore the whole part of `Requests / Duration`, at least one a second.
- `Requests` per `Duration` is not a bound on what a period grants. Twice the budget is one
  for some settings and not for others (`RouterConfig.TwiceTheBudgetIff`): 1199 per 1000 s
  can grant 2399 in a period, since an eviction hands out a second burst and the rate
  still has time for one more.
- "Map size is bounded" (internal/middleware/ratelimit.go:17-21) holds relative to the
  last sweep: at most 4096 more keys than it left.
- Registering checks only that the approved id exists. The e-mail need not be the approved
  one, and several accounts may share one approval.
- A registration whose e-mail is taken after its check and before its insert gets the
  database's uniqueness error, not `ErrUserAlreadyExists`
  (`Contention.WhichRefusal`); an update whose row vanishes between check and write gets a
  no-rows error, which the handler answers with 500.
- The cap of 72 bytes on new passwords is there so that nothing is cut off silently
  (internal/validator/validator.go:42-44). It does not cap logins, and at 72 bytes the
  closing NUL is cut off: such a password is matched by all its extensions
  (`Passwords.LongestOpensForMore`).

## Model

| member | source | states |
|---|---|---|
| `TokenBucket.Conservation` | internal/middleware/ratelimit.go:47 | What a limiter grants in any stretch is paid for by the level it had plus what accrued; tokens come from nowhere else. |
| `TokenBucket.AdvanceIsTransparent` | internal/middleware/ratelimit.go:86 | Storing the advanced level on a refusal changes no later level. |
| `TokenBucket.RefillAfterIdle` | internal/middleware/ratelimit.go:55-58 | The shortest silence after which an entry is evicted fills its bucket, given the budget condition. |
| `RateLimit.Simulation` | internal/middleware/ratelimit.go:46-92 | Under the budget condition a run with any per-key evictions gives a client the answers of one never-evicted bucket, and ends agreeing with it. |
| `RateLimit.EvictionInvisibleIff` | internal/middleware/ratelimit.go:46-92 | For every positive setting, eviction is invisible in all runs to all clients if and only if `burst * 10^9 <= rps * (idle + 1)`. |
| `RateLimit.DrainSweepDrainGrants` | internal/middleware/ratelimit.go:54-65 | Draining, being swept at the first possible moment and draining again grants two full bursts, whatever the rate. |
| `Windows.AnyWindow` | internal/middleware/ratelimit.go:46-92 | Whatever the settings and however many evictions fall in it, a window of length `d`, anywhere in a run, grants a client at most a burst, `rps * d`, and for each idle timeout that fits into `d` what an eviction gives away. |
| `Windows.WindowBound` | internal/middleware/ratelimit.go:46-92 | Under the budget condition that is `burst + floor(rps * d)`. |
| `Windows.AnyCallWindow` | internal/middleware/ratelimit.go:46-92 | The same bound for every window of every run of the middleware with its own triggers. |
| `Windows.TwoBurstsIff` | internal/middleware/ratelimit.go:46-92 | Where `rps * d` is at most a burst, every window of length `d` of every run stays within two bursts if and only if `rps * (d - idle - 1 ns)` is less than one token. |
| `Windows.CallTwoBurstsIff` | internal/middleware/ratelimit.go:46-92 | The same equivalence for the middleware with its own triggers, whenever it is started. |
| `Windows.AndOneMoreGrants` | internal/middleware/ratelimit.go:46-92 | The run that shows the other half: two bursts with an eviction between them and one more request as the window closes, all granted. |
| `RateLimit.PacedNeverDenied` | internal/middleware/ratelimit.go:79-92 | A client whose requests are at least `1/rps` seconds apart is never refused, in any run with any evictions. |
| `RateLimit.RetryAfterHonest` | internal/middleware/ratelimit.go:86-91 | `Retry-After: 1` (section 4 of RFC 6585): a client silent for a second after any request is granted, with or without an eviction meanwhile. |
| `Middleware.WithDefaults` | internal/middleware/ratelimit.go:23-31 | Each setting is kept when positive; otherwise the rate is 1, the burst the rate in force, the idle timeout ten minutes. |
| `Middleware.MiddlewareAnswers` | internal/middleware/ratelimit.go:54-92 | Under the budget condition, with the sweeps its counter and timer trigger, the middleware answers each client as one never-evicted bucket fed that client's timestamps. |
| `TriggeredEviction.MiddlewareInvisibleIff` | internal/middleware/ratelimit.go:42-92 | For every positive setting and start time, the middleware with its own triggers answers all clients of all runs as never-evicted buckets would if and only if `burst * 10^9 <= rps * (idle + 1)`. |
| `TriggeredEviction.SpendTwiceGrants` | internal/middleware/ratelimit.go:74-84 | A client who spends a burst, is silent for the idle timeout and a nanosecond while another makes 4096 requests, and spends a burst again is granted both, whatever the rate. |
| `Middleware.Residency` | internal/middleware/ratelimit.go:42-79 | After every request of every run no entry is older than the idle timeout plus a minute, and the map has at most 4096 keys more than survived the last sweep. |
| `Middleware.NoEarlySweep` | internal/middleware/ratelimit.go:74-77 | No sweep comes before 4096 requests or more than a minute since the last one. |
| `Middleware.PauseAfterSweep` | internal/middleware/ratelimit.go:63-64 | A triggered sweep restarts both triggers: no entry goes for the next 4095 requests of the next minute. |
| `Middleware.HandleBounded` | internal/middleware/ratelimit.go:67-84 | One request keeps the bounds on age, counter and map size. |
| `Middleware.RateLimiter.constructor` | internal/middleware/ratelimit.go:22-42 | A new limiter has the defaulted settings, no entries and zero counters. |
| `Middleware.RateLimiter.Sweep` | internal/middleware/ratelimit.go:54-65 | A sweep leaves exactly the entries seen since the cutoff, as they were, zeroes the counter and stamps the time, and is a run of single-key evictions. |
| `Middleware.RateLimiter.Handle` | internal/middleware/ratelimit.go:67-92 | One request computes the state and answer of its specification, and is a run of evictions followed by that request with the same answer. |
| `RateLimitSplit.SplitBound` | internal/middleware/ratelimit.go:46-92 | With every step interleaved, a client whose key is deleted `k` times in a run of length `d` is granted at most `(1 + k) * (burst + rps * d)`. |
| `RateLimitSplit.StretchBound` | internal/middleware/ratelimit.go:46-92 | The same for a stretch from any sound state: one budget for each of the client's cells still in the map or held by a request, one more if none is in the map, and one per deletion. |
| `RateLimitSplit.ReachedIsSound` | internal/middleware/ratelimit.go:46-92 | Every state a run reaches is such a state. |
| `RateLimitSplit.SplitPacedNeverDenied` | internal/middleware/ratelimit.go:46-92 | Whatever sweeps stall and delete, a client whose requests reach the limiter at least `1/rps` seconds apart is never refused. |
| `RateLimitSplit.SplitRetryAfterHonest` | internal/middleware/ratelimit.go:86-91 | From any sound state a client that has not reached the limiter for a second is granted when it next does, whatever is in flight. |
| `RateLimitSplit.SweepSparesRecent` | internal/middleware/ratelimit.go:55-60 | Whatever happens in between, a sweep that looks at an entry within the idle timeout of a request stamping it lets it be. |
| `RateLimitSplit.StepBalance` | internal/middleware/ratelimit.go:46-92 | Each single step keeps grants plus remaining credit within one burst per bucket ever made, and buckets within one more than deletions. |
| `RateLimitSplit.SplitEvictionNeverInvisible` | internal/middleware/ratelimit.go:54-65 | For every valid setting some interleaving of a sweep's read and delete with requests changes an answer. |
| `RouterConfig.RateTimesDuration` | internal/router/router.go:315-320 | The whole-number rate never pays for more than the budget per period and loses less than one a second, unless it was raised to one. |
| `RouterConfig.Settings` | internal/router/router.go:311-321 | The limiter is on exactly for a positive budget, which is its burst; entries idle for 600 s may go. |
| `RouterConfig.RouterInvisibleIff` | internal/router/router.go:311-321 | The configured middleware, started at any time, hides eviction exactly when the budget is worth at most ten minutes (and a nanosecond) at the computed rate; the same for sweeps at any moments. |
| `RouterConfig.CommonSettingsInvisible` | internal/router/router.go:311-321 | Every period up to 300 s, and every budget up to 600, hides eviction, in the middleware and for sweeps at any moments. |
| `RouterConfig.SlowLargeBudgetVisible` | internal/router/router.go:311-321 | 1000 requests per 1001 seconds does not, whenever the middleware is started. |
| `RouterConfig.TwiceTheBudgetIff` | internal/router/router.go:311-321 | For every budget of at least one a second, every window one period long, of every run and of every run of the middleware, grants at most twice the budget if and only if the rate does not pay for another request between the idle timeout (and a nanosecond) and the period. |
| `RouterConfig.TwiceTheBudgetAtTheEdge` | internal/router/router.go:311-321 | 1199 requests per 1000 s can be granted more than twice over; 1000 per 600 s cannot, although its evictions show. |
| `RouterConfig.WindowOfDuration` | internal/router/router.go:311-321 | Where the rate was raised to one a second and evictions do not show, a window one period long grants at most the budget and a request a second. |
| `Schema.ApproversReachRoot` | migrations/000001_create_approved_users.up.sql:7 | On a valid database every `created_by` walk is finite, repeats nothing, follows the column at each link and ends at a NULL. |
| `Schema.EvolvesTransitive` | migrations/000001_create_approved_users.up.sql:4-9 | Issued ids stay issued, gone rows stay gone and staying rows keep identity and owner across any two stretches. |
| `Statements.InsertApprovedKeeps` | internal/db/sqlc/approved-users.sql.go:14-18 | A single approval keeps every constraint and the approval order. |
| `Statements.InsertUserKeeps` | internal/db/sqlc/auth.sql.go:41-45 | Creating an account keeps every constraint and no staying row changes owner. |
| `Statements.AssignRoleKeeps` | internal/db/sqlc/auth.sql.go:25-29 | Assigning a role keeps every constraint. |
| `Statements.InsertTodoKeeps` | internal/db/sqlc/todo.sql.go:14-18 | Creating a titled todo keeps every constraint. |
| `Statements.UpdateTodoKeeps` | internal/db/sqlc/todo.sql.go:212-222 | A partial update that does not blank the title keeps every constraint and the owner. |
| `Statements.DeleteTodoKeeps` | internal/db/sqlc/todo.sql.go:50-53 | Deleting a todo keeps every constraint. |
| `Statements.DeleteApprovedKeeps` | internal/db/sqlc/approved-users.sql.go:81-84 | Deleting an approval with its cascades keeps every constraint. |
| `Database.CascadeRows` | migrations/000002_create_users.up.sql:5 | Precisely the approval, its accounts, their todos and role rows go; `created_by` pointers to it become NULL; every other column and row of all tables stays, and none appears. |
| `Database.CascadeIsExact` | internal/db/sqlc/approved-users.sql.go:81-84 | What is left is the largest sound sub-database without the row: nothing went that could have stayed. |
| `Database.Store.DeleteApprovedRow` | internal/db/sqlc/approved-users.sql.go:81-92 | Carrying the foreign keys' actions out row by row gives exactly the one-statement result, and the row count. |
| `Database.Store.RemoveUsersUnder` | migrations/000002_create_users.up.sql:5 | Cascading account by account leaves the accounts not under the approval, and the todos and role rows of those. |
| `Database.Store.RemoveUser` | migrations/000005_create_todos.up.sql:5 | An account goes with its own todos and role rows and no others. |
| `Database.Store.RemoveRolesOf` | migrations/000004_create_user_roles.up.sql:4-7 | Exactly one account's role rows go. |
| `Database.Store.ClearCreatedBy` | migrations/000001_create_approved_users.up.sql:7 | ON DELETE SET NULL, row by row: only pointers to the deleted approval change. |
| `Database.Store.CreateApprovedMany` | internal/db/sqlc/approved-users.sql.go:40-46 | The checked and unnested arrays give the all-or-nothing bulk statement. |
| `Database.Store.SetTodo` | internal/db/sqlc/todo.sql.go:212-222 | Each named column gets its value, each other keeps its own, owner and creation time stay; exactly when the row is there. |
| `Database.Store.PutTodo` | internal/db/sqlc/todo.sql.go:14-18 | A row with the given columns, open and with both times now, is stored under the id exactly when the user exists. |
| `Database.Store.RemoveTodo` | internal/db/sqlc/todo.sql.go:50-53 | The row is gone and every other row is as it was. |
| `Database.Store.CreateUser` | internal/db/sqlc/auth.sql.go:41-45 | An active account with the given columns is stored exactly when the e-mail is free and the approval exists; otherwise the error is exact and nothing changes. |
| `Database.Store.CreateApproved` | internal/db/sqlc/approved-users.sql.go:14-18 | A row with the given columns is stored exactly when the e-mail is free and the creator exists; otherwise the error is exact and nothing changes. |
| `Database.Store.GiveRole` | internal/db/sqlc/auth.sql.go:25-29 | Success means the pair is there afterwards; at most that pair is added, existing rows keep their times, and on sound tables it succeeds exactly when the account and the role exist, leaving them sound. |
| `Bulk.CreatedByColumn` | internal/auth/convert.go:94-99 | The third array has one entry per e-mail, each the creator. |
| `Bulk.BulkIsEach` | internal/auth/service.go:234-264 | The bulk statement succeeds exactly when creating the users one by one would at every step, with the same rows up to ids and times, and otherwise changes nothing; with the same ids and time the databases are equal. |
| `Bulk.InsertEachMeaning` | internal/db/sqlc/approved-users.sql.go:14-18 | One by one succeeds exactly when the e-mails are new and pairwise different and the creator exists, whatever ids and times are handed out. |
| `Bulk.InsertedRows` | internal/db/sqlc/approved-users.sql.go:40-46 | Under each new id is its own e-mail with its own first name; all old rows and all other tables are untouched. |
| `Interleaving.NextGood` | internal/auth/service.go:43-114 | Every step of every call keeps all constraints, the role cache and what the call relies on, and gives role rows only to its own new account. |
| `Interleaving.RunKeeps` | internal/todo/service.go:56-116 | Over every interleaving all constraints and every call's own assumptions hold, and ids and owners only move on. |
| `Interleaving.ReachableSound` | migrations/000005_create_todos.up.sql:5-6 | In every reachable state all foreign keys, unique keys and titles are sound. |
| `Registration.CachedRole` | internal/auth/rolecache.go:19-50 | In every reachable state the cached role id is unset or that of the role named "user", and once set it never changes. |
| `Interleaving.ApprovalsNeverCycle` | internal/db/sqlc/approved-users.sql.go:14-46 | After any interleaving of creates, bulk creates and deletes every approval chain ends at a NULL and repeats nothing. |
| `Interleaving.WritesOnlyOwnRows` | internal/todo/service.go:84-116 | Whatever happens between check and write, an update or delete changes at most the row it named, that row is its caller's at that moment and stays so, and no other table changes. |
| `Answers.RegistrationStarts` | internal/auth/service.go:43-55 | In every state a registration is turned away at once exactly for an id that does not parse or that no approval has. |
| `Answers.AccountIsStored` | internal/auth/service.go:65-78 | Its insert is refused for exactly one of three reasons, or stores the active account with the given columns and goes on with its id. |
| `Answers.RoleIsFound` | internal/auth/service.go:101-109 | In between the role is the cached one or the one looked up, which is then cached; without one the token for the new account is handed out. |
| `Answers.RoleIsGiven` | internal/auth/service.go:80-95 | The last step stores the role row and answers with the token for the new account and its expiry, unless a deletion has taken the account. |
| `Answers.CacheIsFilled` | internal/auth/rolecache.go:19-32 | The start-up lookup fills an empty cache with the role named "user", fails if there is none, and leaves a filled cache alone. |
| `Answers.ApprovalIsChecked` | internal/auth/service.go:234-237 | The check of an approval refuses exactly a taken e-mail. |
| `Answers.ApprovalIsStored` | internal/auth/service.go:239-247 | Its insert is refused for exactly one of two reasons, or the answered row is the one stored under the new id. |
| `Answers.ApprovalsAreStored` | internal/auth/service.go:251-264 | A bulk approval is refused for exactly one of three reasons and changes nothing, or each answered row is stored, in order, with its own e-mail and first name, and nothing else changes. |
| `Answers.BulkMeaning` | internal/db/sqlc/approved-users.sql.go:40-46 | The statement succeeds exactly when no e-mail is repeated or taken and the creator exists, and stores exactly its rows. |
| `Answers.DisapprovalIsDone` | internal/auth/service.go:267-269 | A deletion answers not-found exactly for an id that is not there and changes nothing, or has carried out exactly the cascade. |
| `Answers.CreateIsStored` | internal/todo/service.go:56-73 | A create is refused exactly for an empty title or a missing user, or the answered row is stored under the new id with the given columns, open. |
| `Answers.UpdateIsChecked` | internal/todo/service.go:79-90 | The check of an update refuses exactly a blank title, a missing row or somebody else's. |
| `Answers.UpdateIsStored` | internal/todo/service.go:92-103 | The write of an update answers with the row it left in the table, patched column by column, and records it; a row gone meanwhile is a no-rows error. |
| `Answers.DeleteIsChecked` | internal/todo/service.go:107-114 | The check of a delete refuses exactly a missing row or somebody else's. |
| `Answers.DeleteIsDone` | internal/todo/service.go:115 | The write of a delete leaves the row out and every other row as it was. |
| `Answers.DeletedStaysDeleted` | internal/todo/service.go:107-116 | Once a delete has been answered with success, its todo is in no later state of any interleaving. |
| `Answers.AnswersAreRead` | internal/todo/service.go:30-53 | Lists, single reads, logins and token checks answer from the tables of their one step, with exact refusals, and change nothing. |
| `Removal.RemovalIsFinal` | internal/auth/service.go:178-188 | After a successful deletion, in every continuation with calls in flight: no row of theirs; no account, role, approval or todo insert, update or delete made in their name; no token of theirs accepted. |
| `Removal.NeverAttributed` | internal/auth/repository.go:133-142 | From any state where the approval and its accounts are gone, nothing is inserted, updated or deleted in their name, also not by calls already past their checks. |
| `Registration.RegisterOutcome` | internal/auth/service.go:43-114 | In every interleaving a registration's own writes are nothing, one account, or one account and one role row; a token comes only with the role row, or when there is no such role, and names the new account. |
| `Registration.AccountStays` | internal/db/sqlc/approved-users.sql.go:81-84 | An account is there, unchanged, if and only if no recorded deletion since has named it. |
| `Registration.TokenLifetime` | internal/auth/service.go:149-192 | A token of an active account is accepted later if and only if it has not expired and no deletion has taken the account. |
| `Registration.LoginMeaning` | internal/auth/service.go:117-144 | Login answers for exactly the active account with that e-mail whose stored key is the password's; every failure looks the same. |
| `Registration.RegisteredLogsIn` | internal/auth/service.go:68-144 | From its insert on, through every interleaving, a password logs in to an account under its e-mail if and only if it has the registered password's bcrypt key and no deletion has taken the account. |
| `Passwords.SameKeyIff` | internal/validator/validator.go:42-54 | Two passwords without a NUL have one key if and only if they are equal or both have at least 72 bytes and agree on the first 72. |
| `Passwords.LongestOpensForMore` | internal/validator/validator.go:138-146 | A 72-byte password, which registration admits, is also matched by itself with anything appended, which login admits. |
| `Passwords.OpensForItselfTwice` | internal/validator/validator.go:138-146 | Any password is also matched by itself, a NUL and itself again. |
| `Contention.WhichRefusal` | internal/auth/service.go:60-83 | A registration gets `ErrUserAlreadyExists` exactly when the e-mail is taken at its check; past the check, whatever runs before its insert, it gets the raw uniqueness error exactly when the password could be hashed and somebody came to have the e-mail in between. |
| `Contention.TakenSince` | internal/db/sqlc/auth.sql.go:41-45 | Over any run, a free e-mail is taken at the end if and only if some account was created under it since and not deleted since. |
| `Registration.EmailReuse` | migrations/000002_create_users.up.sql:6 | In every interleaving, of two accounts created with one e-mail the first was deleted before the second was created. |
| `Isolation.TodoIsolation` | internal/todo/service.go:30-116 | Removing every other user's todo calls from any interleaved run leaves a run in which each of my todo calls is as far along with the same HTTP answer. |
| `Isolation.ForeignInvisible` | internal/todo/service.go:79-116 | No step of another user's todo call changes my todos or any other table. |
| `Isolation.ReadAlike` | internal/todo/handler.go:88-96 | A todo that is not there and one that is somebody else's get the same HTTP answer. |
| `Isolation.Answered` | internal/todo/handler.go:67-154 | 404 exactly for a todo not there or not owned, 400 exactly for bad parameters, a success status exactly for success, and a body only with it. |
| `Patches.UpdatesMerge` | internal/db/sqlc/todo.sql.go:212-222 | Any sequence of updates is one update by their field-wise, later-wins merge, but for `updated_at`. |
| `Patches.DisjointCommute` | internal/todo/convert.go:53-68 | Updates naming different columns can be exchanged anywhere in a sequence. |
| `Patches.RowIsMergeOfUpdates` | internal/todo/service.go:79-104 | After any interleaving a surviving todo is its earlier self patched by the merge of exactly the updates that succeeded meanwhile. |
| `Patches.NoLostUpdate` | internal/todo/service.go:92-98 | A column a successful update named keeps that value until a later successful update of the same todo names it. |
| `Aggregate.OneQueryAgreesWithThree` | internal/db/sqlc/auth.sql.go:176-227 | On every valid database, for every collation and scan order, the one-query and the three-query user have the same columns, approval and ordered role names. |
| `Aggregate.OrderedUnique` | internal/db/sqlc/auth.sql.go:181 | Two orderings of the same names by one collation are the same list. |
| `Aggregate.RoleNamesFromAggregate` | internal/auth/convert.go:151-163 | The decoder keeps the strings of the scanned array in order, and nothing when the value is no array. |
| `Aggregate.HasRole` | internal/domain/user.go:25-32 | True exactly when some role has the name. |
| `Aggregate.OneShape` | internal/auth/service.go:196-222 | Decoding the aggregate gives the account's and its approval's own columns and the role names. |
| `Aggregate.ThreeShape` | internal/auth/mapper.go:8-41 | So does assembling the three lookups. |
| `Solo.AssignAlone` | internal/auth/service.go:101-114 | The last leg of a registration run alone: the cached role or the looked-up one is given and cached, and with neither nothing is written. |
| `Solo.AloneIsARun` | internal/auth/service.go:43-114 | A call run alone, from any point, is a run of the interleaved system in which only it steps, each time with ids the database could hand out: same tables, same cache, same end. |
| `Solo.AloneKeeps` | internal/auth/service.go:43-114 | So a call run alone comes to an answer and leaves tables and cache sound and ids, owners and staying accounts as they were. |
| `ServiceObjects.AuthService.AssignDefaultRole` | internal/auth/service.go:101-114 | The cache ends as the id it had, or else as the one looked up, and that role is given to the account; with neither nothing is written. On sound tables it succeeds and adds exactly the row of the role named "user". |
| `ServiceObjects.AuthService.Register` | internal/auth/service.go:43-96 | Each refusal exactly: unparsed id, unknown approval, taken e-mail, refused password, and then nothing changes. Otherwise the account is stored with the given columns, and on sound tables the answer is its token with its expiry and exactly the default role row is added. In all it is the step program run alone. |
| `ServiceObjects.AuthService.InitDefaultRoles` | internal/auth/rolecache.go:19-32 | It succeeds exactly when the cache was filled or the role named "user" exists, ends with a filled and right cache, keeps a filled one, and is the step program run alone. |
| `ServiceObjects.AuthService.Login` | internal/auth/service.go:117-144 | A token is issued exactly when some active account has the e-mail and the password's key, it is that account's, and `GetUserFromToken` accepts it as that account until it expires and never after; all refusals are one error. |
| `ServiceObjects.AuthService.GetUserFromToken` | internal/auth/service.go:149-192 | A user is returned exactly for a verified, unexpired token whose account is there and active, and it is that account's row. |
| `ServiceObjects.AuthService.CreateApprovedUser` | internal/auth/service.go:234-248 | Refused exactly for a taken e-mail or a missing creator, changing nothing; otherwise the answered row is the one stored under the new id, with the given columns. It is the step program run alone. |
| `ServiceObjects.AuthService.BulkCreateApprovedUsers` | internal/auth/service.go:251-264 | All rows, stored in order under the new ids with their own e-mails and first names, exactly when the lengths match, no e-mail is repeated or taken and the creator exists; otherwise the error is exact and nothing changes. It is the step program run alone. |
| `ServiceObjects.AuthService.DeleteApprovedUser` | internal/auth/repository.go:133-142 | Success exactly for an id that was there, and then exactly the cascade has happened, row by row; otherwise not-found and nothing changes. It is the step program run alone. |
| `ServiceObjects.TodoService.Create` | internal/todo/service.go:56-73 | Success exactly for a non-empty title of an existing user, and then the answered row is stored under the new id with the given columns, open; otherwise the error is exact and nothing changes. It is the step program run alone. |
| `ServiceObjects.TodoService.Update` | internal/todo/service.go:79-104 | Success exactly for a non-blank patch of the caller's own row, and then the answered row is the stored one, patched column by column, and no other row changes; otherwise the error is exact and nothing changes. It is the step program run alone. |
| `ServiceObjects.TodoService.Delete` | internal/todo/service.go:107-116 | Success exactly for the caller's own row, and then it is gone and every other row is as it was; otherwise the error is exact and nothing changes. It is the step program run alone. |
| `ServiceObjects.TodoService.GetByID` | internal/todo/service.go:43-53 | The row is returned exactly when it is there and the caller's; every other outcome is one and the same 404. |
| `ServiceObjects.TodoService.ListByUserID` | internal/todo/service.go:30-40 | Listed are exactly the todos that `GetByID` gives the user in the same state, with the same rows. |
| `CommaList.CommaSeparated` | internal/config/config.go:307-326 | The loop returns the trimmed non-empty items in order, or the default when there are none. |
| `CommaList.ParseImage` | internal/config/config.go:307-326 | A list can come out of parsing if and only if its items are non-empty, comma-free and trimmed. |
| `CommaList.BlanksAreDropped` | internal/config/config.go:316-320 | Blanks, tabs and line breaks around an item do not count. |
| `CommaList.TheRestIsKept` | internal/config/config.go:316-320 | Every other printable ASCII character but the comma does. |
| `CommaList.JoinAppend` | internal/router/router.go:244-245 | One more item prints as a comma, a blank and the item after the rest. |
| `CommaList.CleanJoinParses` | internal/router/router.go:244-245 | Joining any such list with ", " and parsing gives it back. |
| `CommaList.RoundTrip` | internal/router/router.go:244-251 | A list read from a setting is printed as itself, never as the fallback, and reads back as the same list. |

## Left out

- Floating point in the limiter and in the rate division: exact integers stand for both.
- `Duration <= 0`: the conversion from infinity that the code would do depends on the platform.
- Finding the client's IP (GetRealIP is not part of this model), response headers and bodies other than the todo answers.
- Overlapping requests in `Middleware`: there each triggered sweep ends before its request goes on; overlap is what `RateLimitSplit` is for.
- Transient database failures, connection loss, cancelled contexts; a failed read that the code folds into not-found is only the no-row case.
- Which of two violated constraints the database reports first is fixed: uniqueness before foreign keys.
- The order of listed todos and the list of approvals: todos are handed out as a set of rows.
- Request decoding, field validation, authorization by role and the approvals handlers: they only guard the calls modelled here.
- Text of UUIDs, bcrypt cost, JWT signing and encoding, the rounding of a token's expiry to whole seconds, e-mail normalisation.
- Statements no service issues (filtered lists, user update and delete, role removal), migrations downwards and seed rows: any valid starting database is allowed.
- Bytes that are not UTF-8 in settings: strings are sequences of characters.
- Security headers, CORS decisions, logging, metrics, tracing, pooling and shutdown: each is settled by reading one function.
- Bulk.InsertApprovedBulk: one creator for the whole statement, as the service always passes; arrays of different lengths are the service's error and never reach it.
- ServiceObjects.TodoService.ListByUserID: does not model ORDER BY created_at DESC, nor the loop that copies the rows.
