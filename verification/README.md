# pathql-server: a verified model

pathql-server answers SQL queries with nested JSON. This project models the parts of
it that keep state or make decisions, and proves what each of them promises:

* the **SQL gate** (`sql_lexer`, `sql_boundaries`, `sql_layout`, `sql_gate`): the
  hand-written lexer as loops over an index, proved against a specification that reads
  one segment at a time; a grammar of printed queries that the lexer inverts in both
  directions; and the two validators and the RETURNING test on its token stream;
* the **slow-query toplist** (`top_queries`, `top_queries_bounds`): a weighted
  Space-Saving sketch in a bounded map, and its error bounds over every stream;
* the **per-IP rate limiter** and the **brute-force lockout** (`counters`, `rate_limit`,
  `lockout`, `lockout_handler`, `names`): fixed-window counters in a shared cache;
* the **per-user concurrency limiter** (`per_user`, `per_user_bound`, `per_user_program`) and the **role
  pools** (`role_pools`, `warm_pools`): step systems over every interleaving, and the
  code that runs inside a mutex as classes;
* the **role synchroniser** (`role_sync`, `role_catalog`): the diff, its statements, and
  what running them does to a catalog of roles;
* the **query endpoint** (`executor`, `endpoint`): a transaction from begin to commit or
  rollback, and the routing of requests by statement class.

Loops, maps and counters that the source updates in place are methods and class fields
here, each proved against a function or relation about which the theorems speak.
Threads that run at the same time are modelled as systems of steps: a state value, the
actions that are enabled in it, and invariants proved for every legal list of actions.
`dafny verify dfyconfig.toml` checks everything.

## What the code does not do

Some promises do not hold on every input. For each the model keeps the code as it is,
gives the exact condition under which the promise holds, and where possible an input
that breaks it.

* An error answer does not always mean that nothing was written. The response is encoded
  after the commit, so a write whose response exceeds `max_response_bytes` stays committed
  and its client gets 413 (`Endpoint.ErrorMeansUnchanged`, `Endpoint.RefusedAfterCommit`).
* The per-user cap can be exceeded. The send in acquire is not under the mutex, so it may
  reach a channel that has left the map, or one whose release has read its length and is
  about to delete it. A step makes the map miss a slot in use if and only if it is a send to
  an unmapped channel or a delete of a channel that was sent to after its length was read
  (`PerUserLimiter.ExactStep`). A run of each kind goes over a cap of one
  (`PerUserLimiter.CapCanBeExceeded`); on every run a key has at most the cap plus one
  request for each of its late sends in flight (`PerUserBound.CappedPlusLate`).
* `Compute`'s comment says that no statement is ever about the reader role. That is so only
  when the reader role is not itself an expected or existing managed role; a reader role
  inside the managed prefix makes the script fail or drop the group it granted, and so does
  one that is itself in a role it is granted to (`RoleSync.TouchesExactly`,
  `RoleCatalog.ReaderMustBeApart`).
* The toplist panics on a nil entry when every stored total has reached the largest
  `uint64`, and its totals wrap (`TopQueryBounds.PanicsExactlyWhen`,
  `TopQueryBounds.RangeIsNeeded`). The guarantee is proved for streams below that.
* The Retry-After hint is rounded down, so a client that waits exactly that long may still
  be in the same minute (`RateLimiter.RetryAfterReaches`, `RateLimiter.RetryAfterFallsShort`).
* The lockout admits more than `maxFailures` failures per minute, because the check and the
  increment are separate. The largest possible number is `maxFailures - 1` plus all the
  in-flight caps together, and it is reached: every handler chain (query, metrics, admin,
  schema) has a semaphore of its own and shares the counters with the others
  (`LockoutUnderCap.FailuresBounded`, `LockoutUnderCap.BoundReached`).
* A session timeout between zero and one millisecond is sent as 0, which switches the limit
  off (`Executor.OffWhenBelowMillisecond`). The endpoint's timeouts are whole milliseconds.
* Two queries joined by a newline mean what they mean apart if and only if the first one
  leaves no literal or comment open (`SqlBoundaries.Concatenation`).

## Model

| member | source | states |
|---|---|---|
| SqlLexer.Tokenize | internal/sqlgate/sqlgate.go:241-291 | the index loop yields the token stream `Lex`, about which everything below is proved |
| SqlLexer.NextToken | internal/sqlgate/sqlgate.go:244-288 | one turn of the switch reads and emits exactly one segment, advances, and stays within the input |
| SqlLexer.SkipBlockComment | internal/sqlgate/sqlgate.go:295-313 | stops where the nesting depth first reaches 0, or at the end of the input |
| SqlLexer.SkipString | internal/sqlgate/sqlgate.go:319-337 | stops past the first quote that is neither doubled nor, in an escape string, behind a backslash; at the end if there is none |
| SqlLexer.ScanQuotedIdent | internal/sqlgate/sqlgate.go:342-359 | the same for a quoted identifier, together with its unescaped text |
| SqlLexer.DollarQuote | internal/sqlgate/sqlgate.go:366-385 | recognises a dollar quote and ends past the first later occurrence of its delimiter |
| SqlLexer.SkipLine | internal/sqlgate/sqlgate.go:249-254 | a line comment ends at the next newline or the end |
| SqlLexer.SkipWordBytes | internal/sqlgate/sqlgate.go:274-282 | a word, or the run behind a bare dollar sign, extends over all word bytes |
| SqlLexer.FindOccurs | internal/sqlgate/sqlgate.go:381-383 | the delimiter search returns an occurrence |
| SqlLexer.FindIsFirst | internal/sqlgate/sqlgate.go:381-383 | and no occurrence is earlier |
| SqlLexer.TokensAreFolded | internal/sqlgate/sqlgate.go:263-283 | no word and no quoted identifier comes out with a capital letter A to Z |
| SqlLexer.OneByte | internal/sqlgate/sqlgate.go:244-288 | what a query of one byte lexes to, for every byte: blanks, quotes and the dollar sign are silent, letters are folded, the rest is punctuation |
| SqlLexer.WordContinues | internal/sqlgate/sqlgate.go:275-279 | a byte continues a word if and only if it is a letter, a digit, an underscore or outside ASCII |
| SqlBoundaries.StepLocal | internal/sqlgate/sqlgate.go:241-291 | a finished segment depends only on its own bytes and the one byte after it |
| SqlBoundaries.SplitAtBoundary | internal/sqlgate/sqlgate.go:241-291 | the stream of a query is the stream before any segment boundary followed by the stream of the rest |
| SqlBoundaries.BoundaryTransfers | internal/sqlgate/sqlgate.go:241-291 | a boundary and what is emitted before it survive any change behind it that keeps the next byte |
| SqlBoundaries.ClosedExtends | internal/sqlgate/sqlgate.go:241-291 | text behind a closed query that begins like a new line adds exactly its own tokens |
| SqlBoundaries.OpenSwallows | internal/sqlgate/sqlgate.go:241-291 | an open literal or comment swallows text behind it |
| SqlBoundaries.Concatenation | internal/sqlgate/sqlgate.go:241-291 | lexing a, a newline and b gives the tokens of a and of b, for every b, if and only if a leaves nothing open |
| SqlBoundaries.SilentSwap | internal/sqlgate/sqlgate.go:241-291 | wherever it sits, a segment that emits nothing may be replaced by another with the same first byte |
| SqlLayout.CommentScan | internal/sqlgate/sqlgate.go:295-313 | for every well-nested comment tree the scan ends exactly past the outermost closer |
| SqlLayout.BodyOf | internal/sqlgate/sqlgate.go:295-313 | conversely, every comment that the scan closes is the print of a well-nested tree |
| SqlLayout.QuoteScan | internal/sqlgate/sqlgate.go:319-359 | scanning the quote-doubled text of any body returns the body and the index past the closer |
| SqlLayout.QuoteUnscan | internal/sqlgate/sqlgate.go:319-359 | conversely, every quoted run that ends is the quote-doubled text of what was returned |
| SqlLayout.EscapeScan | internal/sqlgate/sqlgate.go:319-337 | the same for bodies with backslash escapes and doubled quotes |
| SqlLayout.ItemsOf | internal/sqlgate/sqlgate.go:319-337 | conversely, every escape string that ends is such a body |
| SqlLayout.StepOfDollar | internal/sqlgate/sqlgate.go:366-385 | a dollar-quoted text whose first inner delimiter is the closing one is read as one silent segment |
| SqlLayout.DollarTextOf | internal/sqlgate/sqlgate.go:366-385 | conversely, every dollar quote that ends is such a text |
| SqlLayout.DollarOpensExactly | internal/sqlgate/sqlgate.go:366-379 | a dollar quote opens if and only if up to the next dollar sign there is nothing, or an ASCII identifier without a leading digit |
| SqlLayout.StepOfPiece | internal/sqlgate/sqlgate.go:241-385 | reading any printed piece in front of any text it fits consumes that piece and emits its token, or nothing for trivia |
| SqlLayout.PieceOfStep | internal/sqlgate/sqlgate.go:241-385 | every finished segment is a printed piece |
| SqlLayout.TokenOfPiece | internal/sqlgate/sqlgate.go:263-286 | the token of a word or quoted identifier has the same length, its capitals A to Z moved up by 32 and every other character kept; trivia has none |
| SqlLayout.RoundTrip | internal/sqlgate/sqlgate.go:241-291 | print, then lex: any list of words, identifiers, punctuation and interleaved trivia gives back exactly its tokens, in front of any text |
| SqlLayout.RoundTripAt | internal/sqlgate/sqlgate.go:241-291 | the same for each token: where it stands, its kind, and its text character by character with exactly the capitals folded |
| SqlLayout.FoldedBack | internal/sqlgate/sqlgate.go:263-283 | a printed word or identifier comes back as one token with exactly its capitals folded |
| SqlLayout.SpacedRoundTrip | internal/sqlgate/sqlgate.go:241-291 | with a blank after each piece this needs no condition on neighbouring pieces |
| SqlLayout.Decompose | internal/sqlgate/sqlgate.go:241-291 | lex, then print: every query is a partition into pieces and at most one unfinished literal or comment at its end |
| SqlLayout.Reading | internal/sqlgate/sqlgate.go:241-291 | what the lexer emits for any query, in terms of that partition, and when the query is closed |
| SqlLayout.ClosedIsPrinted | internal/sqlgate/sqlgate.go:241-291 | the queries that leave nothing open are exactly the printed ones |
| SqlLayout.PrintedBoundary | internal/sqlgate/sqlgate.go:241-291 | printed pieces end at a segment boundary, whatever follows |
| SqlLayout.Opacity | internal/sqlgate/sqlgate.go:241-291 | other contents in a literal, dollar body or comment leave the token stream unchanged, wherever it sits |
| SqlGate.SkipParens | internal/sqlgate/sqlgate.go:105-108 | skips exactly the leading opening parentheses |
| SqlGate.ScanRules | internal/sqlgate/sqlgate.go:129-140 | the single pass reports what `Offence` says, which `OffenceIsFirst` explains |
| SqlGate.Check | internal/sqlgate/sqlgate.go:173-209 | the validator computes the verdict that `CheckAcceptsExactly` and `CheckMeaning` characterise |
| SqlGate.Classify | internal/sqlgate/sqlgate.go:101-142 | the classifier computes the verdict that `ClassifiesExactly` and `ClassMeaning` characterise |
| SqlGate.HasReturning | internal/sqlgate/sqlgate.go:148-155 | true if and only if the word is a token, so not inside a literal, comment or quoted identifier |
| SqlGate.ReturnsExactly | internal/sqlgate/sqlgate.go:148-155 | that word is RETURNING, and it must be a bare word |
| SqlGate.CheckAcceptsExactly | internal/sqlgate/sqlgate.go:173-216 | for every query and mode, spelled out: accepted if and only if the mode is off, or SELECT, WITH, TABLE or VALUES leads, a semicolon stands at most at the end, and no name is information_schema or begins with pg_ |
| SqlGate.ClassifiesExactly | internal/sqlgate/sqlgate.go:101-142 | spelled out: SELECT, TABLE and VALUES are reads, WITH, INSERT, UPDATE and DELETE writes, under the same two rules |
| SqlGate.CatalogRefused | internal/sqlgate/sqlgate.go:215-217 | a query that names a catalog is refused by both validators in every strict mode |
| SqlGate.BlamesExactly | internal/sqlgate/sqlgate.go:129-140 | which of the two rules is blamed: that of the first token that breaks one |
| SqlGate.OffenceIsFirst | internal/sqlgate/sqlgate.go:129-140 | the rules pass if and only if no token breaks one; otherwise the first that does is blamed, with the right error |
| SqlGate.CheckMeaning | internal/sqlgate/sqlgate.go:173-209 | for every query and strict mode: accepted if and only if clean and begun by a read starter, and when each error is given |
| SqlGate.ClassMeaning | internal/sqlgate/sqlgate.go:101-142 | for every query: when it is a read, a write, empty or not allowed; WITH is a write |
| SqlGate.Agreement | internal/sqlgate/sqlgate.go:101-209 | a read passes Check; Check accepts if and only if Classify accepts and a read starter leads; rule errors agree |
| SqlGate.AcceptedShape | internal/sqlgate/sqlgate.go:173-216 | in a query that either validator accepts a semicolon outside literals and comments is followed by trivia only, and no name spells a catalog in any mixture of capitals |
| SqlGate.StackedRejected | internal/sqlgate/sqlgate.go:129-140 | two statements separated by a semicolon are never accepted |
| SqlGate.VerdictsIgnoreContents | internal/sqlgate/sqlgate.go:101-209 | other contents in a literal or comment change neither validator's verdict nor the RETURNING test |
| TopQueryList.TopQueries.constructor | pathql.go:106-111 | the tracker starts empty |
| TopQueryList.TopQueries.Scan | pathql.go:133-140 | the eviction scan finds an entry of least total, in any map order, unless all totals are the largest number |
| TopQueryList.TopQueries.Record | pathql.go:114-147 | adds to an entry, inserts, or evicts an entry of least total and inherits its count and total; or panics |
| TopQueryList.TopQueries.Top | pathql.go:151-166 | the first n of a descending listing of the whole table; a panic if and only if n is negative |
| TopQueryBounds.RecordKeeps | pathql.go:114-147 | one call keeps the guarantee, does not panic and never lowers the least total |
| TopQueryBounds.Guarantee | pathql.go:114-147 | after every stream a tracked query has true <= stored <= true + floor, an untracked one true <= floor, and totals and counts add up to the stream's |
| TopQueryBounds.FloorRises | pathql.go:114-147 | the least total never falls over any run |
| TopQueryBounds.HeavyHitters | pathql.go:114-147 | capacity times the floor is at most the grand total, so a query above its share is tracked |
| TopQueryBounds.TopExactly | pathql.go:151-166 | Top lists min(n, entries) entries of the table with their counts and totals, none twice, the slowest first |
| TopQueryBounds.TopSound | pathql.go:151-166 | every query that Top leaves out took no more time than the last entry it shows; an empty list means an empty stream |
| TopQueryBounds.PanicsExactlyWhen | pathql.go:131-142 | the nil dereference happens if and only if the table is full, all totals are the largest number, the query is new, and no entry has the empty name |
| TopQueryBounds.RangeIsNeeded | pathql.go:114-147 | one call of the largest duration makes a later one panic, or wrap to zero |
| PerUserProgram.PerUserState.constructor | internal/middleware/concurrency.go:81-87 | the limiter starts in the system's initial state |
| PerUserProgram.PerUserState.Acquire | internal/middleware/concurrency.go:91-115 | succeeds if and only if the key's channel has room, and changes map and channels as `AfterAcquire` says |
| PerUserProgram.PerUserState.Release | internal/middleware/concurrency.go:119-130 | takes one token back and unmaps a channel that became empty; waits, with nothing changed, if and only if the channel has no token |
| PerUserProgram.AcquireIsRun | internal/middleware/concurrency.go:91-115 | an undisturbed acquire is a legal run of the interleaved system, with lookup and send next to each other |
| PerUserProgram.ReleaseIsRun | internal/middleware/concurrency.go:119-130 | an undisturbed release is a legal run of the interleaved system |
| PerUserProgram.HolderIsCounted | internal/middleware/concurrency.go:119-130 | with an exact count a release finds its channel and a token in it |
| PerUserProgram.StaysExact | internal/middleware/concurrency.go:91-130 | the count stays exact over every run without a step that makes the map miss a slot |
| PerUserLimiter.InvAtStart | internal/middleware/concurrency.go:81-87 | the invariant holds at the start |
| PerUserLimiter.InvKept | internal/middleware/concurrency.go:91-130 | every step of every thread keeps the invariant: tokens are backed by holders, an empty mapped channel is tended |
| PerUserLimiter.InvAlways | internal/middleware/concurrency.go:91-130 | so it holds over every interleaving of lookup, send, receive, length test and delete |
| PerUserLimiter.ReleaseNotStuck | internal/middleware/concurrency.go:119-130 | a release that finds its channel empty is unblocked by the creator's send, which is enabled |
| PerUserLimiter.Progress | internal/middleware/concurrency.go:91-130 | while requests are in flight some thread can move: no deadlock |
| PerUserLimiter.MapBounded | internal/middleware/concurrency.go:46-54 | the map holds active keys only, and is empty when nothing is in flight |
| PerUserLimiter.CleanRemovesNothing | internal/middleware/concurrency.go:106-110 | the clean-up after a refusal never finds its channel mapped |
| PerUserLimiter.ExactStep | internal/middleware/concurrency.go:91-130 | a step keeps the mapped count equal to the requests in flight if and only if it is neither a send to an unmapped channel nor a delete of a channel that was sent to after its length was read |
| PerUserLimiter.Capped | internal/middleware/concurrency.go:91-130 | on runs without such a step the requests in flight of a key never exceed the cap |
| PerUserLimiter.OneStepKeepsCount | internal/middleware/concurrency.go:91-130 | no such step occurs when lookup and send are one step: then nobody sends while a delete is pending |
| PerUserLimiter.OneStepCapped | internal/middleware/concurrency.go:91-130 | so the cap holds whenever lookup and send are one step |
| PerUserLimiter.CapCanBeExceeded | internal/middleware/concurrency.go:99-130 | two runs with two requests in flight under a cap of one: the late send comes after the delete, or between the length test and the delete |
| PerUserBound.ExcessStep | internal/middleware/concurrency.go:91-130 | a step moves the requests in flight away from what the next lookup will find by at most one, and only if it is a late send |
| PerUserBound.CappedPlusLate | internal/middleware/concurrency.go:91-130 | over every interleaving a key's requests in flight are at most the cap plus its late sends |
| Names.NumeralReadsBack | internal/middleware/ratelimit.go:32 | reading a numeral back in base ten gives the number; a minus sign exactly for negative ones, no leading zero |
| Names.FormatIntInjective | internal/middleware/ratelimit.go:32 | different numbers have different decimal numerals |
| Names.CounterKeyInjective | internal/middleware/ratelimit.go:29-32 | a counter key determines identifier and minute, even when the identifier contains colons |
| Names.KeySpacesDisjoint | internal/middleware/lockout.go:33-36 | the limiter and the lockout never share a key |
| Names.KeysExactly | internal/middleware/ratelimit.go:32 | the two counter keys as text |
| Names.RoleNameExactly | internal/roles/roles.go:28-54 | the prefix, checked letter by letter, followed by the numeral, in at most 63 bytes; which error comes otherwise |
| Names.ManagedExactly | internal/roles/roles.go:192-194 | a name is managed if and only if it is the prefix followed by something |
| Names.RoleNameIdentifies | internal/roles/roles.go:45-54 | a derived role name is recognised as managed and belongs to one user id |
| Counters.CounterCache.Increment | internal/cache/cache.go:55-64 | returns what a live counter held, or zero, plus the delta; the new cache is the one `IncrementedExactly` describes |
| Counters.IncrementedExactly | internal/cache/cache.go:45-64 | a live counter keeps its expiry, a missing or expired one starts at zero with a new one; of the others exactly the live ones stay |
| Counters.MinuteExactly | internal/middleware/ratelimit.go:30 | the minute of a time is its nanoseconds divided by 60,000,000,000 |
| RateLimiter.RateLimit | internal/middleware/ratelimit.go:22-52 | one request: the counter is incremented and the verdict is whether it exceeds the limit; off, or with a failing cache, everything is served |
| RateLimiter.RateKeyExactly | internal/middleware/ratelimit.go:29-32 | the key a request is counted under, as text |
| RateLimiter.CounterExact | internal/middleware/ratelimit.go:29-34 | within its minute the counter is the number of requests so far, and does not expire |
| RateLimiter.AdmitsExactly | internal/middleware/ratelimit.go:34-49 | admitted if and only if fewer than perMinute requests of that address came before in that minute |
| RateLimiter.QuotaPerMinute | internal/middleware/ratelimit.go:22-52 | per calendar minute an address gets the smaller of its requests and its quota |
| RateLimiter.TwiceInAnyWindow | internal/middleware/ratelimit.go:22-52 | in any 60 seconds an address gets at most twice its quota |
| RateLimiter.RetryAfterReaches | internal/middleware/ratelimit.go:56-63 | the hint is 1 to 60, and waiting that long reaches the next minute if and only if the time left is whole seconds or less than one |
| RateLimiter.RetryAfterFallsShort | internal/middleware/ratelimit.go:56-63 | one nanosecond into a minute the hint is 59, after which the minute is still the same |
| LockoutHandler.ChargedApart | internal/middleware/lockout.go:84-102 | failures are charged to the same counter if and only if credential and minute agree, and never to one of the rate limiter's |
| LockoutHandler.LockoutIdInjective | internal/middleware/lockout.go:84-102 | an identifier determines the kind of credential and its value |
| LockoutHandler.PresentedExactly | internal/middleware/lockout.go:84-111 | which header wins, as a decision table, and that of a key the first eight characters are taken |
| LockoutHandler.FailureKeyExactly | internal/middleware/lockout.go:33-36 | the counter of a credential in a minute, as text |
| LockoutHandler.TrimSpaceCuts | internal/middleware/lockout.go:89-97 | trimming cuts off blanks at the two ends and nothing else |
| LockoutHandler.KeysChargedTogether | internal/middleware/lockout.go:106-111 | at most eight characters of an API key enter an identifier, and two keys share one if and only if these agree |
| LockoutHandler.TrimSpace | internal/middleware/lockout.go:89 | trimmed text has no blank at its ends, and is empty if and only if all was blank |
| LockoutHandler.CheckFailures | internal/middleware/lockout.go:35-41 | the check does to cache and thread exactly what the system's Check step says |
| LockoutHandler.RecordFailure | internal/middleware/lockout.go:52-54 | the increment does exactly what the Record step says, in the minute of the check |
| LockoutHandler.BruteForceLockout | internal/middleware/lockout.go:26-57 | the whole handler: locked out if and only if a live counter has reached the limit, otherwise passed through, and only a 401 is charged; off or with a failing cache it lets through |
| LockoutUnderCap.InvAtStart | internal/middleware/lockout.go:26-56 | the invariant holds at the start |
| LockoutUnderCap.InvKept | internal/middleware/lockout.go:26-56 | every step keeps it: the cache counts every recorded 401 of the running minute, and recorded plus pending ones are bounded |
| LockoutUnderCap.InvAlways | internal/middleware/lockout.go:26-56 | so it holds over every interleaving |
| LockoutUnderCap.FailuresBounded | internal/middleware/lockout.go:26-56 | the 401s of one identifier in one minute, in all handler chains together, never exceed maxFailures - 1 plus the sum of their caps |
| LockoutUnderCap.OneChainBounded | pathql.go:641-644 | with one chain they never exceed maxFailures + maxConcurrentGlobal - 1 |
| LockoutUnderCap.BoundReached | internal/middleware/lockout.go:26-56 | for every limit and any caps some run answers exactly that many |
| LockoutUnderCap.LeaveNeverBlocks | internal/middleware/concurrency.go:24-43 | giving the global slot back never waits |
| WarmPools.RolesToCoolDown | internal/db/rolepool.go:153-181 | returns, oldest first and once each, exactly the roles after which at least warmLimit others were used |
| Sorting.LessExactly | internal/db/rolepool.go:169 | one name is before another if and only if at the first difference it has ended or has the smaller byte |
| WarmPools.CoolIsFront | internal/db/rolepool.go:176-179 | that set is the front of the sorted listing, with pools minus max(0, warmLimit) members |
| WarmPools.RolePools.GetOrCreatePool | internal/db/rolepool.go:185-206 | finds or creates a pool; on failure nothing changes |
| WarmPools.RolePools.ReconcileWarm | internal/db/rolepool.go:213-237 | flipping only the pools whose flag is wrong equals setting every pool from scratch |
| WarmPools.RolePools.AcquireLocked | internal/db/rolepool.go:258-268 | the part under the mutex: creates or touches the pool and recomputes the warm ones, or fails without a change |
| WarmPools.RolePools.Evict | internal/db/rolepool.go:292-302 | removes that pool only and names its handle for closing |
| WarmPools.RolePools.Close | internal/db/rolepool.go:306-318 | empties the map and names every handle for closing |
| WarmPools.WarmExactly | internal/db/rolepool.go:213-268 | after a successful Acquire exactly min(pools, max(0, warmLimit)) pools are warm, the most recently used |
| WarmPools.IdleExactly | internal/db/rolepool.go:213-237 | after a successful Acquire a pool's idle setting is 0 if at least max(0, warmLimit) others were used after it, by time and then name, and the configured number otherwise |
| WarmPools.ValidRoleExactly | internal/db/rolepool.go:31 | a role may be used if and only if it is an ASCII identifier |
| WarmPools.RecomputedWarm | internal/db/rolepool.go:213-237 | which pools are warm and how many, from scratch |
| WarmPools.WarmAreNewest | internal/db/rolepool.go:153-181 | every cooled pool was used before every warm one, by time and then name |
| WarmPools.EvictKeepsWarm | internal/db/rolepool.go:292-318 | removing pools leaves at most as many warm |
| RolePoolSteps.InvAtStart | internal/db/rolepool.go:106-124 | the invariant holds at the start |
| RolePoolSteps.InvKept | internal/db/rolepool.go:246-318 | every step keeps it: tokens equal unreleased leases plus Acquires past the send, and every handle is in one place |
| RolePoolSteps.InvAlways | internal/db/rolepool.go:246-318 | so it holds over every interleaving of Acquire, release, Evict and Close |
| RolePoolSteps.PoolsAccounted | internal/db/rolepool.go:246-318 | the same from the empty manager, for every capacity, warm limit and idle setting |
| RolePoolSteps.IdleBounded | internal/db/rolepool.go:213-237 | at every point of every run a cooled pool keeps no idle connection, any other as many as configured, and at most max(0, warmLimit) keep any |
| RolePoolSteps.EnterIdles | internal/db/rolepool.go:258-268 | an Acquire leaves exactly the most recently used pools with idle connections, whatever else is going on |
| RolePoolSteps.GivingBackNeverBlocks | internal/db/rolepool.go:258-273 | neither a failed Acquire nor a release waits for the token it returns |
| RolePoolSteps.ReleaseOnce | internal/db/rolepool.go:270-273 | releasing again changes nothing |
| RolePoolSteps.LeasesWithinCap | internal/db/rolepool.go:246-275 | leases never exceed maxTotalBackends, and the semaphore is empty if and only if nothing is held or in progress |
| RolePoolSteps.FailedAcquire | internal/db/rolepool.go:258-264 | a failed Acquire leaves everything but its own token as it was |
| RolePoolSteps.HandleFate | internal/db/rolepool.go:292-318 | no handle is under two roles, closed while live, or closed twice; none is lost |
| RoleSync.SortedNames | internal/roles/roles.go:181-184 | collecting a map's keys in any order and sorting gives the one ascending listing |
| RoleSync.ExpectedNames | internal/roles/roles.go:125-132 | the names of all enabled users, or the length error |
| RoleSync.BuildDDL | internal/roles/roles.go:202-233 | creates, then password alters, then grants, then drops, each in listing order |
| RoleSync.Compute | internal/roles/roles.go:117-188 | the plan contains exactly the missing, the ungranted, the superfluous and the existing expected roles; or the right error |
| RoleSync.PlanUnique | internal/roles/roles.go:117-188 | the plan depends on the inputs only, not on map order |
| RoleSync.ListingsExactly | internal/roles/roles.go:125-179 | which names each of the four listings holds, from the user ids, the existing roles and the membership map |
| RoleSync.TouchesExactly | internal/roles/roles.go:109-114 | exactly which roles the statements are about, all of them with the managed prefix |
| RoleCatalog.RunPlan | internal/roles/roles.go:202-233 | running the statements in order never meets a missing or duplicate role, and where it ends |
| RoleCatalog.SyncConverges | internal/roles/roles.go:117-233 | for a reader role outside the prefix and in none of the roles it is granted to, directly or through others: the script ends with exactly the expected managed roles, in the reader group, with their passwords; everything else is unchanged |
| RoleCatalog.SyncIdempotent | internal/roles/roles.go:117-233 | a second Compute and run on the result creates, grants and drops nothing and leaves the catalog as it is |
| RoleCatalog.ManagedReaderFails | internal/roles/roles.go:192-194 | with a reader role inside the prefix the script fails or nobody is in the reader group afterwards |
| RoleCatalog.CircularReaderFails | internal/roles/roles.go:219-225 | with a reader role inside a role that it is granted to, through any chain of groups, the script fails |
| RoleCatalog.ReaderMustBeApart | internal/roles/roles.go:117-233 | the script runs through and all expected users end up in the reader group if and only if the reader role is outside the prefix and in none of the roles it is granted to |
| Executor.CostCeilingError | internal/db/executor.go:86-94 | the estimate is refused if and only if it exceeds an enabled bound |
| Executor.EnforceCostCeiling | internal/db/executor.go:104-125 | no EXPLAIN without a bound; otherwise accepted if and only if it binds, answers and is within the bounds |
| Executor.ApplySettings | internal/db/executor.go:132-153 | sends the enabled settings in order and stops at the first failure |
| Executor.RunQuery | internal/db/executor.go:162-199 | commits if and only if every command of the script succeeds and the plan is accepted; otherwise nothing changes, and the transaction always ends |
| Executor.RunWrite | internal/db/executor.go:221-287 | commits exactly as `WriteCommitsExactly` says; a count over the cap, of an array of returned rows or of affected rows, fails it with the data unchanged, and nothing else is refused as too many rows |
| Executor.LimitsComeFirst | internal/db/executor.go:162-254 | the statement is sent only after every enabled session limit, and after EXPLAIN when a ceiling is set |
| Executor.SettingsExactly | internal/db/executor.go:132-153 | one command for each positive option, with its name and value: timeouts in milliseconds, work_mem in kB |
| Executor.ScriptExactly | internal/db/executor.go:173-194 | after them EXPLAIN, exactly with a positive bound, and the statement |
| Executor.QueryCommitsExactly | internal/db/executor.go:162-199 | commits if and only if all commands succeed and, with a positive bound, the parameters bind and cost and rows are within it |
| Executor.WriteCommitsExactly | internal/db/executor.go:221-287 | the same, and the rows written are within a positive cap wherever the answer tells how many |
| Executor.WriteErrorExactly | internal/db/executor.go:86-94 | when a transaction is refused as too expensive, and when as touching too many rows |
| Executor.OffWhenBelowMillisecond | internal/db/executor.go:132-153 | a positive timeout is sent as 0, which switches it off, if and only if it is below one millisecond |
| Executor.EndsOnce | internal/db/executor.go:168-197 | a transaction ends in one commit, after the statement, or in one rollback |
| Endpoint.Server.SelectQueryPool | pathql.go:549-573 | a pool is given if and only if the identity model allows it, and which status is answered otherwise |
| Endpoint.Server.Handle | pathql.go:383-541 | one request: the new database state, the status, and a log with the right mode, every configured limit before the statement, and EXPLAIN exactly where the configuration has a ceiling; no lease or transaction left open |
| Endpoint.EndedFollows | pathql.go:458-475 | what the log shows, from the configuration: mode, timeouts, work_mem, EXPLAIN before every statement with PostgreSQL and a positive bound, and never otherwise |
| Endpoint.CommitsExactly | pathql.go:383-500 | when a request commits, from the configuration and the request alone |
| Endpoint.CommittedWithinBounds | pathql.go:468-475 | with PostgreSQL a committed request has a plan within the configured cost and rows, and a write a count within the configured cap |
| Endpoint.OverTheCapUnchanged | pathql.go:474-475 | a request whose known count is over the configured cap leaves the database as it is |
| Endpoint.StatusByCause | pathql.go:383-573 | each of the six statuses if and only if one of its causes holds |
| Endpoint.Server.Route | pathql.go:487-540 | a write runs read-write, a read READ ONLY when writes are on |
| Endpoint.Server.Serve | pathql.go:383-541 | any sequence of requests ends in the fold `StateAfter`, with the status each of them was due |
| Endpoint.OnlyWritesLand | pathql.go:413-501 | with writes on only a statement classified as a write changes the database, never with a known count over the cap; with writes off only where read_only is off |
| Endpoint.StateIsFoldOfWrites | pathql.go:413-501 | with writes on the database is the fold of the landings, and these are exactly the statements classified as writes that committed, each on the state it met and within the cap |
| Endpoint.LandedExactly | pathql.go:413-501 | a landing is in the list if and only if it is some request of the run with the state it met, and its transaction changed the database |
| Endpoint.LandsExactly | pathql.go:487-500 | a request changes the database if and only if it commits and is classified as a write, or, with writes off, read_only is off |
| Endpoint.ReadOnlyNeverChanges | pathql.go:413-501 | with writes off and read_only on no sequence of requests changes anything |
| Endpoint.ErrorMeansUnchanged | pathql.go:501-541 | success if and only if committed and encoded; an error hides a change if and only if the response cannot be delivered |
| Endpoint.RefusedAfterCommit | pathql.go:526-538 | it happens to every statement classified as a write: committed, and the client is told that the response is too large |
| Endpoint.TimeoutInForce | pathql.go:458-467 | every statement runs with both timeouts set to the configured milliseconds, which is not 0 |

## Left out

- SqlLexer.Tokenize: characters stand for bytes, and only ASCII letters are lower-cased; `strings.ToLower` also folds some letters outside ASCII, and rewrites invalid UTF-8.
- SqlGate.Check: whether the lexer reads a query as PostgreSQL does is not claimed, only what this code makes of it.
- TopQueryList.TopQueries.Top: which of several equal totals comes first stays open, as it does in the source.
- TopQueryBounds.Guarantee: the grand total is kept below the largest uint64, because the source wraps and panics beyond it.
- Sorting: `sort.Slice` and `sort.Strings` are an insertion sort of the same contract.
- PerUserProgram.PerUserState.Release: when the receive waits, how it goes on is in the step system, not in the method.
- PerUserLimiter: the handler's bypass for a cap of zero or an empty key is not modelled.
- Threads are steps of a value, not Dafny threads; a step is what lies between two points where another thread may run, and nothing is said about fairness.
- LockoutUnderCap.FailuresBounded: a cache that does not fail or evict, and the clock read together with the check; a global cap of zero or less switches the semaphore off in the source, and then there is no bound.
- RateLimiter.QuotaPerMinute: a clock that does not go back, a cache that does not fail or evict, and the clock read together with the increment; cache counters are unbounded numbers.
- LockoutHandler.BruteForceLockout: decoding of Basic credentials and the client address are inputs; blanks are the ASCII ones; `statusWriter` is the status the handlers below answer.
- GlobalInflight's 503 answer, which changes no state, and the other middleware (CORS, XSRF, HSTS, content type, body limit, request ids, recovery).
- WarmPools.RolePools.GetOrCreatePool: the connection string is left out; opening either gives a new handle or fails, and a pool is its handle and its idle setting.
- RolePoolSteps: a cancelled Acquire that never got a token changes nothing and has no step; the zero time of a new pool is 0.
- RoleCatalog.SyncConverges: statements are values, not SQL text, so identifier and literal quoting is left out; roles that own objects can be dropped.
- Names.RoleNameIdentifies: user ids are unbounded numbers.
- Executor.RunQuery: cost estimates are real numbers; a read-only transaction, a rolled-back one and a failed commit change nothing, which is PostgreSQL's promise and is taken as given; a parameter that does not bind inside the path engine is a failing statement.
- Executor.RunWrite: the row count of a RETURNING result reshaped by hints is unknown, as in the source, and not capped after the fact.
- Endpoint.Server.Serve: requests take effect one after the other; the isolation of overlapping transactions is PostgreSQL's.
- Endpoint.TimeoutInForce: durations are unbounded, so a limit so large that it overflows 64 bits in nanoseconds is not modelled.
- Request bodies, JSON encoding, response headers, audit logging and the metrics recorded by the endpoint; the size of the encoded response is an input.
- Authentication, key derivation, JWT and password hashing; configuration loading and validation; schema, health and admin endpoints; server start and shutdown.
- The path inference of pathsqlx and the other libraries.
