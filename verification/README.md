# AxiaOps: a verified model of its hard parts

This project models the parts of AxiaOps whose promises span many calls, many
replicas or many inputs, and proves those promises for all of them. Check it with
`dafny verify dfyconfig.toml`.

- SessionModel, SessionStore, SessionCache, SessionManager: login sessions: the table's transactions, the TTL cache in front of it, and the manager's five operations, call by call and with every call able to fail.
- SessionRefinement: the manager with a cache against the manager without one, over whole runs.
- SessionInterleaving: a step machine in which any number of requests interleave, one store or cache call at a time.
- SessionSteps: its requests, undisturbed, against the manager's operations.
- SessionEffects: what the operations come to in plain terms: whom the cap takes, what a new session carries, what its token is good for.
- SessionStaleness: exactly when a revoked session is still accepted, and which bound on that every run keeps.
- BreachCorpus, BreachInput: the breached-password corpus: input files, in-place dedup, binary search.
- Bootstrap: the race of replicas for the one install token, and its single redemption.
- AuditExport: keyset paging through an audit log that keeps growing.
- Text, Decimal, Base64, PasswordHash, HttpAuth: the argon2id PHC string, the signed canonical string, the several-secrets checks.
- CircuitBreaker, RateLog, RateLimit, MemoryCounters: counters whose guarantees are about histories, with Redis and with the in-memory cache.
- Zombies, Summaries, Accounts, Dismissals, BilledCosts, Detection, Digest: zombie analytics: grouping, rounding, endpoints, billed costs, inventory, digest.
- Jit: group-mapped roles and just-in-time memberships.
- Wrappers, Lexicographic, Sorting: Option and Result, Go's string order, and what sort.Slice promises.

An operation that the program performs step by step is a method here, proved
equal to a function or predicate; the theorems are then about that function or
predicate. Protocols are step machines: a state, an `Apply` for each action, and
theorems over every sequence of actions. What a function of the model comes to is also
stated in plain terms, fields and literals, without naming the functions it is made of.

## Conventions

- Instants and durations are integers in nanoseconds (whole seconds where the code
  uses Unix seconds). The application, the database and the cache share one clock
  that never runs backwards.
- Go strings and byte slices are sequences; a string holds one character a byte, except
  where it is trimmed: what `Text.TrimSpace` is applied to is read as runes.
- Money is `real`. Sums are exact and only `Round2` rounds. In the program both
  are binary floating point, so the equalities hold there up to its rounding.
- SHA-1, SHA-256, HMAC, argon2id, JSON marshalling, ARN building and the
  service-rule tables are arbitrary functions given as parameters. Random draws,
  clocks and failing calls are parameters too.
- A cache entry is served up to and including the instant it expires at, as in the
  in-memory and the Redis backend; "at most a day" therefore includes the end. Redis
  counts in milliseconds. For the rate limiters' counters that is modelled; a session
  entry may live up to a millisecond longer in Redis than here.
- A UUID is never drawn twice: the interleaving machines keep the set of ids
  already issued.

## Where the code and its comments differ

The model follows the code.

- services/api/internal/auth/session.go:190-194 relies on `Live()` to reject a stale
  cache entry of a revoked session. A cached copy keeps the `RevokedAt` it had when
  it was put, which is always nil, so `Live()` on it checks expiry only
  (`SessionStaleness.ServedIffUnexpired`, `SessionStaleness.StaleEntryIsAccepted`).
- services/api/internal/auth/session_cache.go:144-146 says that the cap on the TTL bounds
  the lag of a revocation by 24 h. At the clock that the request captured, and that
  expiry is checked with, this is kept in every run exactly if the session TTL is at most a
  day (and a nanosecond), as it is by default: `SessionStaleness.LagKeptIff`. A longer
  session TTL breaks it through a late Put. By the time of the lookup itself, which a slow
  request may make long after that clock, the bound is 24 h and whatever the Put took,
  also by default: `SessionStaleness.LookupLagKeptIff`.
- services/shared/cache/memory/memory.go:91 calls its Incr atomic. It takes two locks one
  after the other, and a sweep in between can take the counter
  (`MemoryCounters.CapHoldsIffUntorn`).
- services/api/internal/auth/ratelimit.go:29-33 has the TTL cover the current and the next
  minute. It does so for requests that take at most a minute and a millisecond
  (`RateLimit.CapHoldsIffPrompt`).
- services/shared/storage/postgres/native_auth.go:568-573 says that a session committed
  between SELECT and UPDATE is not revoked. Under READ COMMITTED the UPDATE sees it and
  revokes it, but its hash is not returned, so that its cache entry stays
  (`SessionStore.Store.RevokeUserSessions`, `SessionStaleness.CommittedInGap`).
- services/shared/httpauth/httpauth.go:117-123 takes the absolute value of a
  saturating difference. `HttpAuth.SkewTestExact` says for which instants this is
  the distance.
- services/api/cmd/breachlist-gen/main.go:110-113 speaks of one carriage return
  stripped. The scanner has already dropped one, so two go (`BreachInput.StripsTwice`).
- services/api/internal/sso/jit.go:42-44 says that the resolver never returns owner.
  It returns a default of owner when nothing matches
  (`Jit.WhenResolvedIsAssignable`); the database does not admit such a default.
- services/api/internal/auth/password.go:206-215: Sscanf does not look at what
  follows the numbers (`PasswordHash.DecodeIgnoresTrailingText`).
- services/api/internal/auth/install_token.go decides on the token with the trimmed
  variable and on the banner with the raw one (`Bootstrap.DrawnTokenIsHidden`).
- services/shared/analyzer/detector.go:247-249 promises a deterministic top service.
  `Accounts.OrderDoesNotShow` gives the exact condition, which only a service with an
  empty name can break; detection and discovery name the service of every zombie, and for
  those `Accounts.AccountsUnique` has the promise.

## Model

| member | source | states |
|---|---|---|
| SessionInterleaving.AcceptedSession | services/api/internal/auth/session.go:223-266 | In every interleaving of single store and cache calls, with cache failures and dying requests, a session that a validation returns is unexpired at the clock it captured, has the token's hash, and is a copy of a row that some call found un-revoked; from the cache, that call's Put is at most 24 h before the Get |
| SessionInterleaving.AcceptedAfterRevocation | services/api/internal/auth/session.go:268-285 | Once a revocation has reached the table, only calls that had read the row before it can still accept the session, or make a cache entry that does |
| SessionStaleness.ServedIffUnexpired | services/api/internal/auth/session.go:190-194 | In every reachable state, a lookup that meets a servable entry accepts its session if and only if that is unexpired at the captured clock, whatever the table says by then: Live() on a cached copy checks expiry only, against the comment |
| SessionStaleness.StaleEntryIsAccepted | services/api/internal/auth/session.go:190-194 | In every reachable state with a cached session of the table: after its UPDATE, its Del and a lookup, in that order, the session is revoked, and is accepted if and only if the Del failed and it is unexpired |
| SessionStaleness.RevokedSessionAccepted | services/api/internal/auth/session.go:190-194 | There is such a state: mint, revoke with a failing Del, validate |
| SessionStaleness.RevocationLag | services/api/internal/auth/session_cache.go:144-183 | At the clock that its request captured, nothing accepts a session once the session TTL has passed since its revocation, whatever is slow or fails |
| SessionStaleness.LookupLag | services/api/internal/auth/session_cache.go:144-183 | By the time of the lookup: if the Put of the entry came at most D after its read, no lookup later than the revocation plus D plus 24 h accepts the session |
| SessionStaleness.LagIsReached | services/api/internal/auth/session_cache.go:144-183 | Both bounds are reached, for every TTL: runs, in which only a touch and a Put fail, that accept the session at any clock within its TTL, after any delay of the Put and up to the end of the entry |
| SessionStaleness.LagKeptIff | services/api/internal/auth/session_cache.go:144-183 | The promise of 24 h, or any bound from five seconds on: every run keeps it if and only if the session TTL is at most the bound and a nanosecond; so the default of a day keeps it |
| SessionStaleness.LookupLagKeptIff | services/api/internal/auth/session_cache.go:144-183 | By the time of the lookup, for a TTL of a day or more: all runs whose Puts come within D keep a bound if and only if it is at least D plus 24 h |
| SessionStaleness.CommittedInGap | services/shared/storage/postgres/native_auth.go:568-625 | A mint commits before or within a revoke-all whose calls all work: its session is revoked either way, and still accepted if and only if it committed between SELECT and UPDATE and its Put worked |
| SessionInterleaving.CapNeverExceeded | services/shared/storage/storage_native_auth.go:146-162 | For a cap of at least one, no reachable state has a user with more live sessions than the cap, and so no reader ever sees the excess session of a mint |
| SessionEffects.OldestGoFirst | services/shared/storage/postgres/native_auth.go:399-483 | Of two sessions of a user the one whose insert committed at the earlier clock goes first: no later mint of any run revokes the second while the first stays live; at one clock the lesser id counts as first |
| SessionInterleaving.RotationNeverDoubles | services/api/internal/auth/session.go:287-339 | The old and the new session of a rotation are never both live in the table: not before it, at no step of it, and not after it, whatever fails |
| SessionInterleaving.DeadStays | services/shared/storage/postgres/native_auth.go:551-566 | A revoked or swept session never becomes live again, and an id is never issued twice |
| SessionInterleaving.NewSessionAbsentBefore | services/api/internal/auth/session.go:331-339 | Before the insert of a rotation its new session has never been in the table |
| SessionInterleaving.RecordIsFaithful | services/api/internal/auth/session.go:143-366 | The record of tables that the theorems above speak of is the sequence of tables that the run really goes through |
| SessionInterleaving.Reachable | services/api/internal/auth/session.go:143-366 | Every reachable state keeps the invariant on table, entries, requests in flight and rotations |
| SessionRefinement.CacheIsInvisible | services/api/internal/auth/session.go:143-366 | With atomic calls and no cache faults, every run of mints, validations, revocations, rotations, sweeps and clock ticks is answered alike with and without the cache: same decisions, same sessions up to last-seen and the uncached id token |
| SessionRefinement.RevokeUnderOtherHash | services/api/internal/auth/session.go:273-285 | After RevokeSession on a cached live session, with any cache faults, the cached manager rejects the token if and only if the caller passed that session's own hash and its Del worked, or the lookup itself fails; the cache-less one always rejects it |
| SessionRefinement.StepAgrees | services/api/internal/auth/session_cache.go:51-87 | One command keeps the two managers in agreement: equal tables up to last-seen, and every servable entry a copy of its row |
| SessionModel.CacheRoundTrip | services/api/internal/auth/session_cache.go:51-87 | What a cache entry loses of a session is exactly the id token |
| SessionStore.MintRevokesOldestExcess | services/shared/storage/storage_native_auth.go:146-162 | A mint revokes as many of the user's live sessions as exceed the cap, all of them older than all that stay live, never the new one, and changes nothing else |
| SessionStore.OldestUnique | services/shared/storage/postgres/native_auth.go:440-483 | ORDER BY created_at, id LIMIT k determines its rows: any k rows older than the rest are the k oldest |
| SessionStore.CreateIs | services/shared/storage/postgres/native_auth.go:336-483 | The insert field by field: what it demands and refuses, created and last-seen stamped with its own clock, not revoked, all else as asked for; and of the other rows it revokes only live ones of the same user |
| SessionStore.SweptWereDead | services/shared/storage/postgres/native_auth.go:682-694 | Swept is exactly what expired or was revoked before the given instant |
| SessionStore.MintKeepsCap | services/shared/storage/storage_native_auth.go:146-162 | If no user has more live sessions than the cap before a mint, none has after it |
| SessionStore.LessLiveKeepsCap | services/shared/storage/storage_native_auth.go:170-200 | Revoking, sweeping, touching and the passing of time never take a user over the cap |
| SessionStore.RevokeAllLeavesNone | services/shared/storage/storage_native_auth.go:182-186 | Revoking all of a user's sessions leaves none live |
| SessionStore.CreateKeepsWellFormed | services/shared/storage/postgres/native_auth.go:336-483 | The insert keeps primary key and token hash unique |
| SessionStore.Store.CreateSessionEnforcingCap | services/shared/storage/postgres/native_auth.go:336-483 | Inserts and revokes the excess in one step, or reports the missing field, the collision or the outage and changes nothing; returns the revoked hashes |
| SessionStore.Store.GetSessionByTokenHash | services/shared/storage/postgres/native_auth.go:499-530 | Returns the one row with the hash, live or not, or not-found; an empty hash is never found |
| SessionStore.Store.TouchSessionLastSeen | services/shared/storage/postgres/native_auth.go:535-547 | Stamps last-seen of that row only |
| SessionStore.Store.RevokeSession | services/shared/storage/postgres/native_auth.go:551-566 | Stamps the row once; a second call keeps the first stamp |
| SessionStore.Store.RevokeUserSessions | services/shared/storage/postgres/native_auth.go:574-625 | Revokes exactly the user's live sessions as of the UPDATE, including any that other transactions commit after the SELECT, and returns exactly the hashes of the SELECT |
| SessionCache.PutTtl | services/api/internal/auth/session_cache.go:157-183 | The TTL is the remaining lifetime, at most a day, and nothing is cached with five seconds or less to live; an entry never outlives its session |
| SessionCache.PutThenGet | services/api/internal/auth/session_cache.go:51-183 | What is put is got, but for the id token, up to the end of its lifetime or a day, whichever comes first; other entries stay |
| SessionCache.Cache.Get | services/api/internal/auth/session_cache.go:117-143 | A miss for an empty hash, a failing backend, an absent or expired entry; otherwise the cached copy |
| SessionCache.Cache.Put | services/api/internal/auth/session_cache.go:157-183 | Writes the entry under the session's hash with the chosen TTL, or nothing |
| SessionCache.Cache.DeleteMany | services/api/internal/auth/session_cache.go:205-209 | Drops every listed non-empty hash whose Del succeeds, one after the other, whatever happens to the others |
| SessionManager.Manager.MintSession | services/api/internal/auth/session.go:143-213 | Insert under the cap, then Put, then evict the revoked; state and answer are those of the function Mint, which the theorems above are about |
| SessionManager.Manager.ValidateSession | services/api/internal/auth/session.go:223-266 | Cache, then table, then touch and Put; state and answer are those of Validate |
| SessionManager.Manager.RevokeSession | services/api/internal/auth/session.go:273-285 | Table first, cache second; state and answer are those of RevokeOne |
| SessionManager.Manager.RevokeUserSessions | services/api/internal/auth/session.go:349-366 | Revokes in the table, evicts every hash of the SELECT, returns how many, whatever commits before the UPDATE; state and answer are those of RevokeAll |
| SessionManager.Manager.RotateSessionForOrg | services/api/internal/auth/session.go:331-339 | Revoke first, mint only if that worked; state and answer are those of Rotate |
| SessionManager.Manager.constructor | services/api/internal/auth/session.go:83-88 | A zero TTL means a day |
| SessionEffects.MintCarries | services/api/internal/auth/session.go:143-213 | A mint that succeeds answers with a session of the requested user, organization, mode, address and id token, under the hash of the token it hands out, expiring a TTL later; it is in the table |
| SessionEffects.MintRefuses | services/api/internal/auth/session.go:143-190 | When a mint is refused and with which error; nothing changes then |
| SessionEffects.RotateCarries | services/api/internal/auth/session.go:287-339 | A rotation that succeeds: the same for the new session, and the old one is revoked |
| SessionEffects.MintedTokenValidates | services/api/internal/auth/session.go:143-266 | Until it expires the new token validates, from cache or table and whatever other calls fail, to a session of the requested user and organization |
| SessionEffects.RotatedTokenValidates | services/api/internal/auth/session.go:223-339 | So does the token of a rotation: an organization switch lands in the requested organization |
| SessionEffects.ValidatedIs | services/api/internal/auth/session.go:223-266 | What a validation returns: the cached copy, or the live row with the hash of the token, stamped as seen when there is a cache |
| SessionEffects.RevokesOne | services/api/internal/auth/session.go:273-285 | A revocation field by field: one row stamped unless it already is, one entry dropped if a hash is given and the Del works, and the errors |
| SessionEffects.RevokesAll | services/api/internal/auth/session.go:349-366 | A revoke-all field by field: the count and the dropped entries are those of the SELECT, the stamped rows those live at the UPDATE |
| SessionSteps.UndisturbedMint | services/api/internal/auth/session.go:143-213 | A mint that nobody disturbs, with any cache faults, does in the step machine, by its own start and calls alone, what MintSession does, with the same answer |
| SessionSteps.UndisturbedValidate | services/api/internal/auth/session.go:223-266 | The same for ValidateSession |
| SessionSteps.UndisturbedRevoke | services/api/internal/auth/session.go:273-285 | The same for RevokeSession |
| SessionSteps.UndisturbedRevokeUser | services/api/internal/auth/session.go:349-366 | The same for RevokeUserSessions |
| SessionSteps.UndisturbedRotate | services/api/internal/auth/session.go:331-339 | The same for RotateSessionForOrg |
| BreachCorpus.CorpusIsMembership | services/api/cmd/breachlist-gen/main.go:75-96 | For any digests, the blob is a strictly increasing run of 20-byte records, and a digest is among them if and only if it went in |
| BreachCorpus.CorpusAscends | services/api/cmd/breachlist-gen/main.go:75-96 | Byte by byte: of two records the earlier is the lower at the first byte where they differ |
| Lexicographic.FirstCharacter | services/shared/analyzer/detector.go:254 | Of two Go strings the lower is a proper prefix of the other or has the lower byte where they first differ |
| BreachCorpus.CorpusOfSet | services/api/cmd/breachlist-gen/main.go:75-96 | The blob depends only on the set of digests, not on their order or repetition |
| BreachCorpus.AnySortWillDo | services/api/cmd/breachlist-gen/main.go:75-78 | Whatever sorted arrangement of the digests sort.Slice leaves, the corpus is the same |
| BreachCorpus.DedupInPlace | services/api/cmd/breachlist-gen/main.go:79-91 | Writing survivors over the front of the very slice being read keeps each run of equal digests once |
| BreachCorpus.DedupIncreases | services/api/cmd/breachlist-gen/main.go:79-91 | Dedup makes a sorted list strictly increasing |
| BreachCorpus.DedupKeepsMembers | services/api/cmd/breachlist-gen/main.go:79-91 | Dedup loses no digest and invents none |
| BreachCorpus.Generate | services/api/cmd/breachlist-gen/main.go:66-96 | Sorts, dedups and concatenates in place; no digests is an error |
| BreachCorpus.IsCompromised | services/api/internal/breachlist/breachlist.go:53-68 | On any blob a hit is a record; on an increasing blob the binary search finds the digest if and only if it is a record |
| BreachCorpus.Screen | services/api/internal/breachlist/breachlist.go:53-68 | Generator and lookup together: a password is reported if and only if its SHA-1 was among the digests |
| BreachInput.ReadWordlist | services/api/cmd/breachlist-gen/main.go:114-129 | Hashes each line that is neither blank nor a comment, in order |
| BreachInput.ScansLineByLine | services/api/cmd/breachlist-gen/main.go:110-129 | The scanner cuts at newlines, drops one carriage return from each line, and wants no newline at the end |
| BreachInput.WordIs | services/api/cmd/breachlist-gen/main.go:110-129 | A line is hashed without one more carriage return, unless it is then empty or starts with a number sign |
| BreachInput.StripsTwice | services/api/cmd/breachlist-gen/main.go:110-129 | The hashed word is the line without its line ending if and only if the line does not end in two carriage returns, of which both go |
| BreachInput.TwoReturnsGo | services/api/cmd/breachlist-gen/main.go:110-129 | Any word written with two carriage returns is hashed without either |
| BreachInput.WordlistScreens | services/api/cmd/breachlist-gen/main.go:110-129 | From wordlist to answer: a password is reported if and only if its digest is that of some word of the list |
| BreachInput.HexRoundTrip | services/api/cmd/breachlist-gen/main.go:149-152 | Either spelling of a digest decodes to its raw bytes |
| BreachInput.ParseHashIs | services/api/cmd/breachlist-gen/main.go:140-164 | What counts as a hash: up to the colon, hexadecimal, 20 bytes; and the error otherwise |
| BreachInput.BlankLinesSkipped | services/api/cmd/breachlist-gen/main.go:131-164 | Blank lines change nothing, wherever they stand |
| BreachInput.StopsAtMalformed | services/api/cmd/breachlist-gen/main.go:131-164 | The first malformed line ends the reading with its error, unless n hashes came before it |
| BreachInput.ReadHIBP | services/api/cmd/breachlist-gen/main.go:131-164 | Reads hashes until n are taken, stopping at the first malformed one |
| BreachInput.HibpTakesFirst | services/api/cmd/breachlist-gen/main.go:131-164 | A well-formed file gives its digests in order, cut at the first n |
| Bootstrap.SingleWinner | services/shared/storage/storage_native_auth.go:232-261 | For any number of replicas counting, drawing, creating and restarting, any consume requests and any failures: at most one create wins, at most one consume succeeds, and it carries the winner's hash |
| Bootstrap.SealedForever | services/api/internal/auth/install_token.go:74-108 | After a successful consume no row ever reappears and no token is redeemed, not even through a replica that counted zero organizations before it |
| Bootstrap.OnlyWinnersTokenRedeems | services/shared/storage/postgres/native_auth.go:851-930 | While a row stands its token, and only its token, redeems it |
| Bootstrap.Grows | services/shared/storage/postgres/native_auth.go:791-826 | Wins, consumes and organizations are never undone |
| Bootstrap.UndisturbedStart | services/api/internal/auth/install_token.go:74-150 | A start that nobody disturbs: it settles where there is an organization, and otherwise wins exactly an empty row |
| Bootstrap.CreateOutcomes | services/shared/storage/postgres/native_auth.go:791-826 | Each outcome of a create, and that only the first on an empty database changes it |
| Bootstrap.ConsumeOutcomes | services/shared/storage/postgres/native_auth.go:851-930 | Each outcome of a consume, and that only the hash in the row makes an organization and takes the row away |
| Bootstrap.Installation.MaybeGenerateInstallToken | services/api/internal/auth/install_token.go:74-150 | Which of the results comes out, whatever others do to the database between the count and the create; and that the token in the file and on the banner is the one whose hash stands in the row, and does redeem it |
| Bootstrap.Installation.CleanUp | services/api/internal/auth/install_token.go:195-219 | After the consume neither the file nor this process's environment holds the token, unless the removal fails |
| Bootstrap.DrawnTokenIsHidden | services/api/internal/auth/install_token.go:85-150 | A drawn token whose banner was asked for is not shown if and only if BOOTSTRAP_INSTALL_TOKEN is blank but not empty |
| AuditExport.ExportIsNewestPrefix | services/api/internal/api/export.go:243-265 | Under concurrent inserts that are newer than the first page's last row, and with no zero key among the cursors, the pages are exactly the newest min(N, ceiling) rows of the log as the first page saw it, and truncation is reported if and only if N reaches the ceiling |
| AuditExport.ExportIsExactIff | services/shared/model/audit.go:201-205 | With rows only prepended while paging, the export is that prefix if and only if no row whose key becomes a cursor carries the zero key; a zero key elsewhere does no harm |
| AuditExport.PagesDescend | services/api/internal/api/export.go:243-265 | Whatever commits while paging, also late and below the cursor: as long as no row read has the zero key, the pages descend strictly, and leave out no row of the first view down to the end, or down to the last row read when the ceiling stopped the loop |
| AuditExport.RowsIsProduct | services/api/internal/api/export.go:38-45 | The ceiling is page size times pages: 100000 rows |
| AuditExport.AuditListIs | services/shared/storage/postgres/postgres.go:1514-1562 | One page: the newest rows older than the cursor in creation time and id, as many as asked for, or 500 if that is not between one and 500 |
| AuditExport.ReversedIsChronological | services/api/internal/api/export.go:226-237 | After the reversal the export is strictly chronological, over the same rows |
| AuditExport.PrependedRowsAreNewer | services/shared/model/audit.go:191-205 | A log whose new rows are only ever prepended meets the condition on inserts |
| AuditExport.LaterPage | services/shared/storage/postgres/postgres.go:1514-1562 | A later page is cut from the log as the first page saw it, whatever has been inserted above |
| AuditExport.OrgExport.LoadAuditLog | services/api/internal/api/export.go:243-265 | The cursor loop, with any query failing, computes Pages, which the theorems are about |
| AuditExport.OrgExport.ReverseAuditLog | services/api/internal/api/export.go:229-235 | The swap loop reverses the rows in place |
| PasswordHash.PhcRoundTrip | services/api/internal/auth/password.go:160-223 | Parsing undoes printing: for all costs that fit their fields and all byte strings, decode gives back exactly memory, time, threads, salt and key, and tells other versions apart |
| PasswordHash.PhcInjective | services/api/internal/auth/password.go:160-181 | Two parameter sets never print alike |
| PasswordHash.DecodedIs | services/api/internal/auth/password.go:199-223 | Whatever decode accepts is six fields between dollar signs, the second of them argon2id, with the salt and the key in the last two |
| PasswordHash.DecodeIgnoresTrailingText | services/api/internal/auth/password.go:199-223 | decode is laxer than Hash: text added after the version and after the last cost is ignored if and only if it holds no '$' and does not start with a digit |
| PasswordHash.HashThenVerify | services/api/internal/auth/password.go:185-197 | A password verifies against the hash of another if and only if argon2 gives both the same key under its salt; so the hashed password always does |
| PasswordHash.Hash | services/api/internal/auth/password.go:160-181 | Prints the fixed costs, the salt and the key; an empty password or no entropy is an error |
| PasswordHash.Verify | services/api/internal/auth/password.go:185-197 | Recomputes the key under the decoded parameters and compares |
| Base64.RawRoundTrip | services/api/internal/auth/password.go:216-221 | Unpadded standard base64 (sections 3.2 and 4 of RFC 4648) decodes to what was encoded, for all byte strings, and never prints a '$' |
| Base64.StdRoundTrip | services/shared/httpauth/httpauth.go:74-85 | Padded standard base64 decodes to what was encoded |
| Base64.SameNumber | services/shared/httpauth/httpauth.go:74-85 | Three bytes and their four sextets are the same big-endian number; a short last group is filled with zero bits |
| Base64.AlphabetInOrder | services/shared/httpauth/httpauth.go:74-85 | The alphabet of section 4 of RFC 4648, in its order |
| Base64.RawDecodes | services/api/internal/auth/password.go:216-221 | Without line breaks exactly the texts over the alphabet are decoded whose last group is not a single character |
| Base64.LineBreaksDoNotMatter | services/api/internal/auth/password.go:216-221 | Line breaks are ignored wherever they stand |
| Base64.StdInWholeGroups | services/shared/httpauth/httpauth.go:74-85 | The padded form is read in whole groups of four only |
| Base64.ShortVectors | services/shared/httpauth/httpauth.go:74-85 | Test vectors of section 10 of RFC 4648 |
| Decimal.ScanPrinted | services/api/internal/auth/password.go:206-215 | Scanning a printed number stops where the number does and gives it back |
| Decimal.ScanSigned | services/api/internal/auth/password.go:206-208 | The version may have a sign and must fit 64 bits |
| Decimal.ScanTooLarge | services/api/internal/auth/password.go:206-215 | A number that does not fit is refused |
| Decimal.ScanSkipsBlanks | services/api/internal/auth/password.go:206-215 | Blanks before a number are skipped, but no newline |
| Decimal.ParseFormat | services/shared/httpauth/httpauth.go:105-112 | strconv.ParseInt undoes FormatInt on all 64-bit integers |
| Decimal.ParsesExactly | services/shared/httpauth/httpauth.go:105-112 | ParseInt accepts exactly digits with at most one sign whose value fits 64 bits |
| Text.SplitJoin | services/api/internal/auth/password.go:199-205 | Splitting undoes joining for parts without the separator |
| Text.TrimSpaceIs | services/api/internal/auth/install_token.go:152-165 | What is trimmed is white space, and all of it at either end |
| Text.SpacesAre | services/api/internal/auth/install_token.go:152-165 | White space is that of unicode.IsSpace |
| HttpAuth.CanonicalEqual | services/shared/httpauth/httpauth.go:131-146 | For methods without a newline, two canonical strings are equal if and only if timestamps and methods agree and so do path, newline and body taken together; paths may hold newlines |
| HttpAuth.CanonicalInjective | services/shared/httpauth/httpauth.go:131-146 | So the canonical string determines timestamp, method, path and body, for methods and paths without a newline |
| HttpAuth.SignatureBindsRequest | services/shared/httpauth/httpauth.go:91-128 | A signature that Verify accepts was made for this very timestamp and method, and for this path, newline and body taken together, or else two different canonical strings have the same MAC |
| HttpAuth.DomainsSeparate | services/shared/httpauth/httpauth.go:53-70 | No request whose path starts with '/' reads like a queue envelope |
| HttpAuth.ReadsLikeEnvelope | services/shared/httpauth/httpauth.go:53-70 | Exactly when a request with a newline-free method does read like an envelope |
| HttpAuth.EnvelopeInjective | services/shared/httpauth/httpauth.go:151-164 | The signed text of an envelope determines its timestamp and payload |
| HttpAuth.SignedVerifies | services/shared/httpauth/httpauth.go:91-128 | What Sign produces Verify accepts within the skew window and rejects as skewed outside it |
| HttpAuth.SignedEnvelopeVerifies | services/shared/httpauth/httpauth.go:166-202 | The same for envelopes |
| HttpAuth.EnvelopeSignsNoRequest | services/shared/httpauth/httpauth.go:53-70 | An envelope's signature verifies for no request, short of such a collision |
| HttpAuth.SkewTestExact | services/shared/httpauth/httpauth.go:117-123 | The skew test measures the distance of the two instants if and only if that is below 2^63 ns, the range of a Duration; and what it answers beyond |
| HttpAuth.VerdictIs | services/shared/httpauth/httpauth.go:91-128 | Accepted is exactly what carries a timestamp in the window and the MAC of timestamp, method, path and body on lines of their own; of several faults the first is reported |
| HttpAuth.EnvelopeVerdictIs | services/shared/httpauth/httpauth.go:151-202 | The same for envelopes and their two fixed lines |
| HttpAuth.FarFutureWithinWindow | services/shared/httpauth/httpauth.go:117-123 | An instance of that: 300 years ahead counts as within five minutes |
| HttpAuth.SignRaw | services/shared/httpauth/httpauth.go:131-146 | Feeding the MAC piece by piece is feeding it the canonical string |
| HttpAuth.MultiSecretMiddleware | services/shared/httpauth/middleware.go:85-188 | Serves if and only if no non-empty slot exists, or the body is readable and within the cap and some non-empty slot verifies or enforcement is soft; tells an unreadable from an oversized body, and otherwise refuses with some slot's own reason |
| HttpAuth.VerifyEnvelopeMultiSecret | services/ingestion/cmd/worker.go:178-198 | Accepts if and only if no non-empty slot exists or some non-empty slot verifies |
| HttpAuth.SignedJobVerifies | services/shared/queue/redis/redis.go:76-142 | A job signed on one side of the queue is accepted on the other within the window |
| HttpAuth.JobSignatureBinds | services/shared/queue/redis/redis.go:76-142 | A job accepted under a signature has the very timestamp and content it was made for, short of a collision |
| HttpAuth.UnsignedJobs | services/shared/queue/redis/redis.go:120-142 | Without a secret jobs go as they are and every job is accepted; with one a job is stamped and signed, and none is accepted that is not |
| CircuitBreaker.CountersMatchHistory | services/shared/circuitbreaker/circuitbreaker.go:107-134 | For every interleaving of the locked sections: failures is the length of the trailing run of failures; successes counts the results, all successes, since the breaker went half-open and is zero otherwise; closed means fewer failures than the limit |
| CircuitBreaker.TransitionsMatchHistory | services/shared/circuitbreaker/circuitbreaker.go:77-134 | When the mode changes, in terms of the results alone: a closed breaker opens exactly at the result that completes maxFailures failures, a half-open one opens exactly at a failure and closes exactly at the result that completes successThreshold successes, an open one leaves only by an upgrade after the timeout |
| CircuitBreaker.NoAdmissionWhileOpen | services/shared/circuitbreaker/circuitbreaker.go:78-105 | After opening at time T no deciding read admits until the clock has passed T + ResetTimeout, not even the last read of a caller that had seen an earlier timeout |
| CircuitBreaker.StaysOpen | services/shared/circuitbreaker/circuitbreaker.go:78-105 | Till then it stays open, whoever interleaves |
| CircuitBreaker.AdmissionAfterTimeout | services/shared/circuitbreaker/circuitbreaker.go:85-98 | After it, a caller whom nobody disturbs gets through |
| CircuitBreaker.RefusedAtOnce | services/shared/circuitbreaker/circuitbreaker.go:85-98 | A first read within the timeout refuses on the spot, whatever happens afterwards |
| CircuitBreaker.AdmittedIffTimeoutPassed | services/shared/circuitbreaker/circuitbreaker.go:78-105 | After an opening at T with no later result, an undisturbed caller is let through at every clock past T + ResetTimeout and at no other |
| CircuitBreaker.UndisturbedExecute | services/shared/circuitbreaker/circuitbreaker.go:66-134 | A caller that nobody disturbs does in the step machine what Execute does |
| CircuitBreaker.ClosedBoundNeedsLimit | services/shared/circuitbreaker/circuitbreaker.go:128-129 | The bound on a closed breaker's failures holds in all runs if and only if MaxFailures is at least one |
| CircuitBreaker.CircuitBreaker.CanExecute | services/shared/circuitbreaker/circuitbreaker.go:78-105 | Undisturbed, admits unless it is open and ResetTimeout has not passed since the last failure, and goes half-open when it lets an open breaker be tested |
| CircuitBreaker.CircuitBreaker.RecordResult | services/shared/circuitbreaker/circuitbreaker.go:107-134 | Each counter, the time of the last failure and the mode after a result |
| CircuitBreaker.CircuitBreaker.Execute | services/shared/circuitbreaker/circuitbreaker.go:66-75 | Runs and records, or refuses and changes nothing: when, and each field afterwards |
| RateLimit.AdmittedWithinCap | services/api/internal/auth/ratelimit.go:90-132 | Against Redis, in every interleaving of single increments, with expiries and failing increments, in which no request takes more than a minute and a millisecond from its clock reading to an increment: each limit admits at most cap requests a minute plus one for every cache error; a login is held by its address's and its email's limit at once |
| RateLimit.AdmittedInWindow | services/api/internal/middleware/ratelimit.go:71-87 | Any sixty seconds see at most twice the cap, plus the errors |
| RateLimit.CapHoldsIffPrompt | services/api/internal/auth/ratelimit.go:29-33 | For every cap of at least one, all runs whose requests take at most D keep it if and only if D is at most a minute and a millisecond, on a cache that counts in milliseconds |
| RateLimit.DecisionsAreExact | services/shared/cache/redis/redis.go:94-108 | The expiring counters decide as a log of all increments would: refused if and only if the cache answered and cap increments had been applied to the base in its minute; neither the two-minute TTL, nor expiry, nor a pipeline done by half shows |
| MemoryCounters.CapHoldsIffUntorn | services/shared/cache/memory/memory.go:91-153 | With the in-memory backend, whose Incr and sweep take their locks one after the other: all runs of prompt requests keep a cap of at least one if and only if no sweep takes a counter that has been made but not yet counted on |
| MemoryCounters.DecisionsAreExact | services/shared/cache/memory/memory.go:91-109 | As long as no sweep does, these counters too decide as the log would |
| MemoryCounters.TearIsFatal | services/shared/cache/memory/memory.go:125-153 | And from every reachable state in which a request is about to count on a newborn counter of the current minute, a sweep and cap more requests let one past an exhausted limit |
| MemoryCounters.TornRunExceedsCap | services/shared/cache/memory/memory.go:125-153 | The shortest such run from the start admits cap + 1 requests without any cache error |
| MemoryCounters.AdmittedWithinCap | services/api/internal/auth/ratelimit.go:90-132 | Without such a sweep each limit admits at most cap requests a minute |
| MemoryCounters.Cache.Incr | services/shared/cache/memory/memory.go:91-109 | Undisturbed, the two sections are one fault-free Incr: the count and the new expiry |
| MemoryCounters.UndisturbedCount | services/shared/cache/memory/memory.go:91-109 | The two steps of an undisturbed request do in the step machine what Incr does, and let it past its limit if and only if the count is within it |
| RateLog.DeskWithinCap | services/api/internal/middleware/ratelimit.go:71-87 | Any log that decides exactly keeps every cap |
| RateLog.KeyInjective | services/api/internal/middleware/ratelimit.go:35-38 | Counters of different bases or minutes never share a key, although bases may hold colons and digits |
| RateLog.KeyReads | services/api/internal/middleware/ratelimit.go:35-38 | A counter is named after its base and the number of the minute |
| RateLimit.UndisturbedLogin | services/api/internal/auth/ratelimit.go:90-132 | A login that nobody disturbs does in the step machine what LoginRateLimiter.Allow does |
| RateLimit.CounterCache.Incr | services/shared/cache/redis/redis.go:94-108 | Counts from zero after expiry and resets the TTL, in milliseconds; on an error nothing, only the increment, or both may have been done |
| RateLimit.RemainingIsExact | services/api/internal/middleware/ratelimit.go:58-66 | Of the checks that follow in the minute exactly Remaining are allowed |
| RateLimit.RetryAfterLeavesBucket | services/api/internal/auth/ratelimit.go:211-222 | The advice is between 1 s and 60 s, and whoever follows it meets another minute's counter |
| RateLimit.RateLimiter.Check | services/api/internal/middleware/ratelimit.go:71-87 | Decision, remaining and reset time; allows with full remaining on a cache error |
| RateLimit.LoginRateLimiter.Allow | services/api/internal/auth/ratelimit.go:90-132 | Address first, email only if it passes, and which of the two refused |
| RateLimit.LoginCountersApart | services/api/internal/auth/ratelimit.go:90-139 | Two addresses share a login counter only if they are the same, a missing one counting as unknown; no address shares one with an email, and emails do only under the same tag |
| RateLimit.OthersDoNotMatter | services/api/internal/auth/ratelimit.go:90-139 | A login from one address for one email leaves the counters and the next decision of another address and email unchanged |
| RateLimit.IPRateLimiter.Allow | services/api/internal/auth/ratelimit.go:185-209 | One limit per address and prefix; passes on a cache error |
| RateLimit.AddressCountersApart | services/api/internal/auth/ratelimit.go:185-209 | Two addresses share a counter only if they are the same, a missing one counting as unknown |
| RateLimit.OtherAddressesDoNotMatter | services/api/internal/auth/ratelimit.go:185-209 | One address leaves the next decision about another unchanged |
| RateLimit.SubjectCountersApart | services/api/internal/middleware/ratelimit.go:35-38 | Every subject has its own counter |
| RateLimit.IPRateLimiter.constructor | services/api/internal/auth/ratelimit.go:176-181 | A cap of zero or less means 30 |
| Zombies.GroupsConserve | services/shared/analyzer/detector.go:111-180 | Conservation: over any duplicate-free list of keys that covers them, group counts and savings add up exactly to those of the whole |
| Zombies.RoundedGroupsConserve | services/shared/analyzer/detector.go:111-132 | With rounding: counts exactly, savings within half a cent for each group and one more for the total, for non-negative costs |
| Zombies.RoundingError | services/shared/analyzer/detector.go:368-371 | round2 is within half a cent if and only if the amount is at least minus half a cent or happens to be a tie |
| Zombies.RoundedIsCents | services/shared/analyzer/detector.go:368-371 | round2 gives a whole number of cents: the amount and half a cent, cut off towards zero |
| Zombies.TotalOfMultiset | services/shared/analyzer/detector.go:111-132 | A sum of costs does not depend on the order |
| Summaries.Summarize | services/shared/analyzer/detector.go:111-132 | The accumulating loop and the rounding walk over the map give the declared totals, currency and groups |
| Summaries.SummaryIs | services/shared/analyzer/detector.go:111-132 | The summary in plain terms: number, rounded sum and first currency of all, and for each service that occurs the number and the rounded sum of its own zombies |
| Summaries.SummaryAddsUp | services/shared/analyzer/detector.go:111-132 | The services of a summary, in any order of the map, add up to its totals |
| Summaries.SummarizeByServiceResourceType | services/shared/analyzer/detector.go:149-180 | One row for each pair, strictly sorted, with its count, rounded savings and first currency |
| Summaries.BreakdownIs | services/shared/analyzer/detector.go:149-180 | Each row in plain terms: the pair occurs, and number, rounded sum and first currency are those of its own zombies |
| Summaries.BreakdownUnique | services/shared/analyzer/detector.go:167-180 | That list is the same for every order of the map |
| Summaries.BreakdownAddsUp | services/shared/analyzer/detector.go:149-180 | The breakdown accounts for every zombie and, but for rounding, every dollar |
| Accounts.SummarizeByAccount | services/shared/analyzer/detector.go:204-245 | One row for each account with zombies, in order of first appearance, with its first known account number, count, rounded savings and a top service |
| Accounts.AccountIs | services/shared/analyzer/detector.go:204-245 | Each row in plain terms: number and rounded sum of the account's own zombies, and the first account number one of them has |
| Accounts.AccountsListed | services/shared/analyzer/detector.go:204-245 | Exactly the accounts with zombies get a row, and one each |
| Zombies.InFirstAppearance | services/shared/analyzer/detector.go:204-245 | Rows come in the order in which their accounts first appear |
| Accounts.TopServiceIs | services/shared/analyzer/detector.go:225-260 | No other service of the account costs more than its top service, and none of those that cost as much has a lesser name |
| Accounts.AccountsAddUp | services/shared/analyzer/detector.go:204-245 | The accounts account for every zombie and, but for rounding, every dollar |
| Accounts.SavingsByServiceIs | services/shared/analyzer/detector.go:225-232 | An account's map holds for a service exactly what its zombies of that service cost |
| Accounts.TopServiceIsTop | services/shared/analyzer/detector.go:247-260 | Whatever the order of the map, topService returns the service with the largest savings and among those the smallest name |
| Accounts.OrderDoesNotShow | services/shared/analyzer/detector.go:250-260 | The result is the same for every order of the map if and only if no service is nameless, or nothing else is there, or some service saves more than the nameless one |
| Accounts.AccountsUnique | services/shared/analyzer/detector.go:200-260 | When every zombie names its service, as all that is stored do, the whole table is the same for every order of the maps |
| Accounts.TopService | services/shared/analyzer/detector.go:250-260 | The walk over the map in random order returns the lead of some order |
| Dismissals.EndpointsNeverDiverge | services/api/internal/api/handler.go:440-460 | The promise: for account ids without a vertical bar, the only ones that the foreign key to accounts, whose ids are UUIDs, lets into the table, the two summary endpoints agree on every account, whatever the zombies and dismissals hold otherwise |
| Dismissals.AgreeIffNoClash | services/api/internal/api/handler.go:411-460 | What the fingerprint takes for granted: the endpoints agree on an account, whatever the zombies and the dismissals, if and only if none of the accounts that dismissals name clashes with it, that is one id with a vertical bar after it starting the other; ids of accounts never do |
| Dismissals.EndpointsAgree | services/api/internal/api/handler.go:411-460 | If no dismissal in force clashes with it, the account's row has the very count and savings of its own summary, and is absent if and only if that count is zero |
| Dismissals.FiltersCommute | services/api/internal/api/handler.go:411-460 | Filtering to an account and applying its dismissals then leaves the same zombies in the same order as applying all dismissals and filtering |
| Dismissals.ForeignDismissalDiverges | services/api/internal/api/handler.go:373-381 | Whenever another account's dismissal shares a zombie's fingerprint the two endpoints differ |
| Dismissals.FingerprintIsFaithful | services/api/internal/api/handler.go:373-381 | Fingerprints of fields without vertical bar are equal if and only if all five fields are |
| Dismissals.EnrichWithDismissals | services/api/internal/api/handler.go:338-371 | Drops or annotates the dismissed, by the last dismissal with the fingerprint, and keeps the rest in order |
| Dismissals.StillOutstanding | services/api/internal/api/handler.go:338-371 | A zombie is outstanding if and only if it is the account's and shares its fingerprint with no dismissal of the account that is neither revoked nor a snooze that is over |
| Dismissals.SpentDismissal | services/shared/storage/postgres/postgres.go:1380-1400 | A revoked dismissal, or a snooze that is over, changes nothing |
| Dismissals.OutstandingInOrder | services/api/internal/api/handler.go:338-371 | What is outstanding keeps its order |
| Dismissals.LabelledInPlace | services/api/internal/api/handler.go:338-371 | With the dismissed included every zombie keeps its place and fields and is labelled with the last dismissal of its fingerprint |
| Dismissals.GetSummary | services/api/internal/api/handler.go:411-437 | The summary of what filter and dismissals leave |
| Dismissals.GetSummaryByAccount | services/api/internal/api/handler.go:443-460 | The table of what all dismissals leave |
| BilledCosts.ApplyBilledCosts | services/ingestion/cmd/main.go:977-992 | In place and zombie by zombie: where a billed record has the id, only the cost, now the sum of those records, and the basis change; elsewhere only the basis does |
| BilledCosts.BilledForAdds | services/ingestion/cmd/main.go:977-983 | What an id is billed for is the sum of the amounts of the billed records with that id |
| BilledCosts.NothingIsBilledTwice | services/ingestion/cmd/main.go:977-992 | The billed zombies cost exactly what was billed for their ids, whatever the bills, if and only if no non-empty id is listed twice |
| BilledCosts.RebillingIsIdempotent | services/ingestion/cmd/main.go:977-992 | A second run changes nothing |
| Detection.Detect | services/shared/analyzer/detector.go:51-94 | The map index finds what a scan for the last usage record finds; zombies come in cost order |
| Detection.DetectedIff | services/shared/analyzer/detector.go:51-94 | An id is flagged if and only if some cost under it has a rule and its last usage is at or below the threshold |
| Detection.DetectedAre | services/shared/analyzer/detector.go:51-94 | Each zombie field by field: what of the cost, what of the last usage, what of the rule, and the team of the tags |
| Detection.AnnotateAll | services/shared/analyzer/detector.go:275-366 | The inventory with both map indexes is the one with linear scans |
| Detection.InventoryIds | services/shared/analyzer/detector.go:275-366 | One record for each cost with an id, in order, then one for each zombie whose id no cost has |
| Detection.CostRecords | services/shared/analyzer/detector.go:275-334 | The record of a cost field by field, with type, reason and owner of the last zombie of that id where it has any |
| Detection.ZombieRecords | services/shared/analyzer/detector.go:335-363 | The record of a zombie whose id no cost has |
| Detection.MarkedIffZombie | services/shared/analyzer/detector.go:275-366 | A record is marked if and only if its id is a zombie's, and an unmarked one has no reason |
| Detection.EveryZombieAppears | services/shared/analyzer/detector.go:335-363 | Every zombie's id appears, marked |
| Detection.DetectedAreMarked | services/shared/analyzer/detector.go:51-366 | Detection and inventory together: a record is marked if and only if some cost under its id is idle by its service's rule |
| Digest.BuildPayload | services/shared/notifications/renderer.go:30-60 | The payload carries the trimmed ranking and the summary's totals, with the currency's fallback |
| Digest.DigestUnique | services/shared/notifications/renderer.go:30-43 | The rows are the same for every order of the map |
| Digest.DigestShowsTheBest | services/shared/notifications/renderer.go:30-43 | topN rows or all of them, strictly sorted, true to the summary, and each ranked above everything left out |
| Jit.JITResolveRole | services/api/internal/sso/jit.go:36-86 | Role by role: admin if it is the default or some group is mapped to it, else member likewise, else viewer if some group is mapped to it, else the default, which is viewer if empty |
| Jit.HighestIsUnique | services/api/internal/sso/jit.go:52-86 | Neither the order of mappings nor that of groups matters |
| Jit.WhenResolvedIsAssignable | services/api/internal/sso/jit.go:42-44 | Owner comes out if and only if it is the default and no mapping matches |
| Jit.JITProvisionMembership | services/api/internal/sso/jit.go:125-205 | Result and table are those of Provisioned, or a failing call leaves the table alone |
| Jit.ProvisionedIs | services/api/internal/sso/jit.go:125-205 | A provisioning case by case, in terms of the role, the caller's row and what placed it |
| Jit.ProvisioningIsContained | services/api/internal/sso/jit.go:125-205 | Changes at most the caller's own row, never an owner's or one that JIT did not place; creates only non-owner JIT rows; changes something exactly when it says so |
| Jit.RepeatIsNoop | services/api/internal/sso/jit.go:112-124 | Repeating a successful call does nothing |
| Jit.ProvisionedRole | services/api/internal/sso/jit.go:150-201 | After a successful call the caller's row has the resolved role, unless it is an owner's or not JIT's |
| Jit.EveryStepIsContained | services/api/internal/sso/jit.go:145-201 | The same containment for each single call to the store, however logins interleave with each other and with others' inserts, deletions and role changes: an owner made after JIT looked is not demoted either |
| Jit.UndisturbedProvision | services/api/internal/sso/jit.go:125-205 | A login that nobody disturbs does in the step machine, by its own steps alone, what a whole call of JITProvisionMembership does, with the same result |
| Jit.MembershipStore.SaveMembership | services/shared/storage/postgres/postgres.go:1858-1897 | Inserts under the given or a drawn id, with 'manual' for no provenance, or reports a collision with any unique index and changes nothing |
| Jit.MembershipStore.GetMembershipByOrgUser | services/shared/storage/postgres/postgres.go:1838-1855 | The caller's row, or not-found |
| Jit.MembershipStore.UpdateMembershipRole | services/shared/storage/postgres/postgres.go:1902-1948 | Changes the role only, and refuses to demote the last owner or to make a second one |

## Left out

- HTTP handlers, cookies, JSON, metrics, logging, mail and chat transports, AWS calls: plumbing around the modelled decisions.
- SQL, row-level security, cascades and Redis internals: the store and the cache are modelled from their contracts and their Go code; a statement or transaction is one atomic step.
- SessionInterleaving.AcceptedSession: does not say that the session is un-revoked when it is returned, because that is not so (see above); a failing store call is a request that dies.
- SessionManager.Manager.ValidateSession: IP addresses are texts, so the normal form that parsing an address gives is not modelled.
- The stdlib scanner's limit on line length, and errors of opening, reading and writing files in the corpus generator.
- BreachCorpus.Generate: the sort is a function on the contents of the array, because sort.Slice is a library call (`AnySortWillDo` shows that it does not matter which); the dedup after it is in place.
- AuditExport.ExportIsNewestPrefix: rows that commit later than they were stamped can come in below a cursor, which this theorem excludes and AuditExport.PagesDescend does not; the audit filters other than the cursor are not modelled, because the export uses none; the other parts of the export are independent queries.
- AuditExport.OrgExport.ReverseAuditLog: swaps in a sequence field instead of a shared slice; nothing else refers to it.
- HttpAuth.SkewTestExact: time.Unix's own internal representation, which wraps for timestamps some 292 billion years away, is not modelled.
- PasswordHash.Verify: argon2's own failures on zero cost parameters are not modelled, since argon2 is a parameter; the password policy is left out.
- RateLimit.LoginRateLimiter.Allow: trimming, lower-casing and hashing the email are one given function; a limiter without a cache allows everything and is left out.
- RateLimit.AdmittedWithinCap: a clock before 1970 is not modelled.
- MemoryCounters.CapHoldsIffUntorn: the loss of all counters when the process ends is not modelled.
- CircuitBreaker.CountersMatchHistory: a call of the protected function that never returns leaves no result; panics are not modelled.
- Zombies.RoundingError: amounts whose cents do not fit a machine integer are not modelled.
- Detection.Detect: the rule table, the resource types and the ARN format are given functions, being finite tables.
- Dismissals.EnrichWithDismissals: the last known cost that the listing joins to a dismissal is not carried, because no summary reads it.
- Jit.MembershipStore.UpdateMembershipRole: timestamps and the organization taken from the context are not modelled.
- Jit.EveryStepIsContained: relies on the table's unique indexes, on ids not being reused, and on nobody changing whose row it is or who placed it; no statement of the program does.
- The scan status machine and scheduler spacing, whose documented claims do not hold on every path; roles and permissions, SSO enforcement, pricing, validation tables, URL and domain parsing: finite tables or thin wrappers, easy members only.
- Deleting users and organizations, and the cascades this sets off: not part of this model.
- Cryptographic strength and constant-time comparison.
