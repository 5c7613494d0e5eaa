# Verified models of the 0ops control plane

Dafny models of the parts of 0ops whose correctness spans several functions, several processes or a whole run,
with proofs. `dafny verify dfyconfig.toml` checks everything.

| modules | what they model |
|---|---|
| `Bytes`, `Utf8`, `JsonString`, `JsonText`, `JsonCanon`, `JsonLaws`, `JsonGrammar`, `Decimal`, `CivilTime`, `CalendarLaws` | the bytes the audit chain hashes: JSON reading and writing (RFC 8259), canonical form, UTC timestamps and their calendar |
| `AuditCore`, `HashChain` | the canonical core of an audit row, the per-(team, month) hash chain, its verification, tamper evidence |
| `AuditLog`, `AuditRequest`, `AuditRepository` | the append protocol as a state machine over concurrent transactions, what a row says of its request, and `InsertAuditLog` itself |
| `Sorting`, `AuditExport`, `WireFormat`, `AuditVerify`, `AuditMonths`, `AuditEndToEnd`, `AuditVerdict` | export paging, the bytes on the wire, `audit verify`, and what its verdict means for a ledger the append protocol wrote |
| `AuditAnchor`, `AuditOrder` | what an anchor vouches for, rows and anchors read at different moments, and why rows are sorted by id |
| `RateLimit`, `RateLaws`, `RateExact` | the token-bucket pool with idle eviction, and the runs that mark the limits of its promises |
| `MigrationLint` | the linter's comment and literal stripper |
| `UsageLedger`, `UsageRollup`, `UsageBooks` | the allocation ledger, integration, daily rollups and their staleness rule |
| `UploadQuota`, `UploadCaps`, `UploadHandler` | upload quotas under concurrency, and what each cap bounds over a run |
| `JobQueue`, `JobTimes`, `JobRuns` | the reconciliation job queue, how long a job is left alone, and the runs that exceed its retry cap or abandon a job |
| `CappedWriter` | the capped, hashed and counted output of `PackDir` |

Conventions. SHA-256, the printing of float64 values, UUID parsing and the text jsonb gives back are parameters, so
every result holds for any such functions; "or a collision" means the proof produces two different byte strings
with one hash. Clocks are parameters. A SQL statement, and each step named below, is atomic. Classes are the source's
objects and tables; each of their methods is proved equal to a function of the old state, and the laws are proved
about runs of those functions.

## What the proofs found

Places where the code does less than its comments or its purpose promise, each with the lemma that gives the exact
condition, and the run or input that shows it.

- `audit verify` formats the end of a month to whole seconds (src/internal/cli/audit_verify.go:234), so a row stamped
  strictly inside a month's last second falls outside the window while the anchor counts it, and an untouched ledger
  is reported broken: `AuditVerdict.LateRowBreaks` is such a ledger. The exact condition is `AuditVerdict.Verify`: OK if
  and only if no row is late and every stored row still has the bytes that were hashed, or a collision.
- A stored row keeps those bytes exactly when jsonb gives back documents of equal canonical form
  (`AuditLog.WrittenFaithful`); a document holding `-0` is an input for which it does not
  (`AuditLog.NegativeZeroUnfaithful`).
- `VerifyChain` starts from the manifest's genesis and does not recompute it, and does not compare an empty tip
  (src/internal/server/services/audit/verify.go:57,76). `HashChain.VerifyChain` says exactly what it accepts;
  `AnyGenesisVerifies` gives, for any starting hash and any content, a chain that it accepts, and `EmptyTipVerifies` a
  chain cut short. `TamperEvidence` is about chains from the derived genesis, `AuditAnchor.AnchorPins` about a ledger's
  own anchor.
- The comment at src/internal/server/db/audit.go:350-351 says ascending export order makes a re-sort unnecessary.
  Timestamps are taken before the lock and ids after it; `AuditOrder.UnsortedVerdict`: without the re-sort a clean chain
  links if and only if its timestamps rise with its ids, or a collision. `AuditOrder.ResortNeeded` is a run of two
  concurrent appends for which they do not, and `AuditEndToEnd.ResortedRows` shows the re-sort is enough.
- Rows and chain heads are separate reads: `AuditAnchor.SplitReadVerdict`: a clean chain whose head is read later than
  its rows verifies if and only if nothing was committed to it in between.
- The quota of q calls a minute is exceeded by one when q does not divide a minute, because a wait under a nanosecond
  counts as none: `RateExact.EarlyBeatsBound` is the run. `RateExact.RateBoundIff`: at most q + q*d/minute calls in d
  nanoseconds, over every run, if and only if q divides a minute and buckets are kept for a minute less a nanosecond;
  `RateExact.TokensIff`: a bucket never falls below zero if and only if q divides a minute.
- Idle eviction is invisible over every run if and only if buckets are kept for a minute, or a nanosecond less when
  every quota in the table divides a minute: `RateExact.InvisibleIff`, with a run that notices it for every other case
  (`SoonNoticed`, `DebtNoticed`).
- `InvalidateKey` also drops buckets of keys that extend the given one by a bar, and of no others:
  `RateLimit.InvalidateReach`.
- An unterminated literal swallows a newline at the very end of a file, so the line number just past the end is off by
  one, exactly then: `MigrationLint.LastLine`.
- `/*/` is a whole comment to the linter, because the closer may use the opener's star, and a block comment that is never
  closed leaves its last byte in place (src/internal/server/db/migrationlint/lint.go:158-173):
  `MigrationLint.BlockCommentErased`, `OpenBlockErased`.
- The staleness rule of the daily rollups misses three kinds of change: a late close that ends before an already
  rolled-up day, a reopen of a guessed close after its day was rolled up, and a change between a pass's reading and its
  storing (`NOW()` is taken at the storing). `UsageBooks.ChangedPendsIff`, `CloseLoses`, `ReopenLoses` and `StoreLoses` give
  the exact conditions, `LateCloseRun`, `ReopenRun` and `RaceRun` the runs.
- With a quota table lacking both the plan and the free tier, uploads are refused for the pinned cap and not, as the
  comment at src/internal/server/uploads_quota.go:52-56 says, for nearing the byte cap: `UploadQuota.NoTierRejectsAll`.
- The pinned cap bounds nothing: pins are not checked, so whatever the cap, uploads made one at a time can all be pinned
  (`UploadCaps.PinnedUnbounded`). The daily cap does hold, but for uploads in flight (`UploadCaps.DailyBound`).
- `SumInertBytesByTeam` counts expired rows until they are collected, although its comment says "non-expired"
  (src/internal/server/db/uploads.go:111-119); `UploadQuota.Inert` follows the statement.
- A write that straddles the cap of `PackDir`, and only that, leaves the size counter and the hash short of the output,
  contrary to the comment at src/internal/cli/upload_pack.go:128-129: `CappedWriter.Packed`.
- A reconciliation job whose worker dies after claiming it is never taken up again: `JobRuns.AbandonedForever`.
- A job put off until later can be taken up before its time: exactly when a worker still has it on a list made before
  it was put off (`JobTimes.EarlyIff`). Claiming checks the status and not the time.
- A job can be retried past the cap of attempts. A worker takes it there exactly when it retries a job at the cap on a
  list that showed it below (`JobRuns.CapPassedIff`); in all at most once for each claim on an outdated list
  (`JobQueue.RunKeeps`), and for any number of these some run exceeds the cap by as many (`JobRuns.CapExceeded`).

## Model

| member | source | states |
|---|---|---|
| JsonString.UnquoteEscape | src/internal/server/services/audit/chain.go:108-111 | decoding the string literal json.Marshal writes gives the text back, malformed bytes replaced by U+FFFD |
| JsonString.StringRoundTrip | src/internal/server/services/audit/chain.go:108-111 | a string survives encoding exactly when it is well-formed UTF-8 |
| JsonString.EscapeNoControl | src/internal/server/services/audit/chain.go:108-111 | no byte below 0x20, in particular no 0x1F, and none of <, > and & is ever written inside a literal |
| JsonString.EscapePlain | src/internal/server/services/audit/chain.go:108-111 | a text of printable ASCII without quotes, backslashes and those three is written as it is |
| JsonString.EscapeShortest | src/internal/server/services/audit/chain.go:108-111 | any other ASCII byte gets JSON's two-byte escape if there is one, and six bytes with lower-case digits otherwise |
| JsonText.ParseText | src/internal/server/services/audit/chain.go:170-173 | the parser accepts every well-formed document, with any spacing, and returns its syntax |
| JsonText.ParseSound | src/internal/server/services/audit/chain.go:170-173 | whatever the parser accepts is the text of a well-formed document |
| JsonLaws.CanonicalNull | src/internal/server/services/audit/chain.go:156-169 | empty raw JSON and null have the same canonical form |
| JsonLaws.CanonicalText | src/internal/server/services/audit/chain.go:156-175 | insignificant whitespace, inside or around, never changes the canonical bytes |
| JsonLaws.CanonicalIffMeaning | src/internal/server/services/audit/chain.go:156-175 | two accepted texts have equal canonical bytes if and only if they denote the same JSON value |
| JsonLaws.MemberOrderIrrelevant | src/internal/server/services/audit/chain.go:156-159 | objects are the same value if and only if they bind the same keys to the same values, whatever the member order; a repeated key keeps its last value |
| JsonLaws.CanonicalIdempotent | src/internal/server/services/audit/chain.go:156-175 | canonicalising a canonical form is the identity and keeps the value |
| JsonLaws.CanonicalNoControl | src/internal/server/services/audit/chain.go:108-111 | a canonical document contains no control byte, hence no separator, and none of <, > and & |
| JsonLaws.CanonicalTidy | src/internal/server/services/audit/chain.go:156-175 | a canonical document is the text of one with the same meaning, no space between tokens and the keys of every object strictly increasing |
| Bytes.LessMeans | src/internal/server/services/audit/chain.go:156-159 | increasing means: the lower byte where two keys first differ, or a proper beginning |
| JsonGrammar.NumberGrammar | src/internal/server/services/audit/chain.go:170-173 | the scanner accepts exactly the numbers of section 6 of RFC 8259 |
| JsonGrammar.EscapedScalar | src/internal/server/services/audit/chain.go:170-173 | any character written as a `\u` escape or a surrogate pair is read back as itself |
| Decimal.IntRoundTrip | src/internal/server/services/audit/chain.go:111-113 | an integer's text reads back as the integer and is never the text null |
| WireFormat.IntShape | src/internal/server/services/audit/chain.go:111-113 | an integer is an optional minus and digits without a leading zero |
| WireFormat.Positional | src/internal/server/services/audit/chain.go:111-113 | the value of two runs of digits put together is that of a decimal number |
| CivilTime.TimeRoundTrip | src/internal/server/services/audit/chain.go:141 | every calendar field is recovered from the formatted timestamp |
| WireFormat.TimestampShape | src/internal/server/services/audit/chain.go:141 | every timestamp is YYYY-MM-DDTHH:MM:SS, a fraction without trailing zeros if there is one, and Z |
| WireFormat.LabelBegins | src/internal/server/services/audit/chain.go:56-62 | a month's label is how every timestamp of that month begins |
| CivilTime.TicksInjective | src/internal/server/db/audit.go:375-380 | the number instants are ordered and compared by tells all of them apart |
| CalendarLaws.TicksOrder | src/internal/server/db/audit.go:375-380 | that number orders instants by the calendar, first differing field first |
| CalendarLaws.LeapCount | src/internal/cli/audit_verify.go:232-234 | the leap years before any year number a quarter, less a hundredth, plus a four-hundredth |
| CalendarLaws.MonthStarts | src/internal/cli/audit_verify.go:232-234 | every month from March on starts on its day of the year |
| CalendarLaws.RangeLimit | src/internal/server/services/audit/export.go:143-164 | a range is refused exactly when it ends before it starts, or after the same day and time thirteen months later |
| CivilTime.LabelInjective | src/internal/server/services/audit/chain.go:56-62 | different months have different labels |
| CivilTime.MonthWindow | src/internal/cli/audit_verify.go:232-234 | the window from a month's start to its end cut to whole seconds holds exactly that month's instants, but for those inside its last second |
| AuditCore.EncodeCore | src/internal/server/services/audit/chain.go:98-144 | the buffer-writing encoder computes the joined fourteen-field form, or fails exactly when a document has no canonical form |
| AuditCore.FieldBuffer.WriteRaw | src/internal/server/services/audit/chain.go:99-107 | with the `first` flag, the buffer is always the fields written so far joined by the separator |
| AuditCore.CoreRoundTrip | src/internal/server/services/audit/chain.go:85-144 | splitting canonical bytes at 0x1F and decoding recovers all fourteen fields, null, "" and "null" apart |
| AuditCore.CanonicalIffContent | src/internal/server/services/audit/chain.go:85-144 | on well-formed text, two cores have equal canonical bytes if and only if they say the same thing |
| WireFormat.PlainLayout | src/internal/server/services/audit/chain.go:98-144 | the hashed text of a row whose texts are plain, spelled out field by field |
| HashChain.GenesisLayout | src/internal/server/services/audit/chain.go:64-75 | splitting a genesis text at 0x1F gives the domain, the team and the month's label |
| HashChain.GenesisTextIff | src/internal/server/services/audit/chain.go:64-75 | for teams without a separator in their id, two genesis texts are equal if and only if team and month are |
| HashChain.OwnChainOnly | src/internal/server/services/audit/chain.go:64-83 | rows that link from one team and month's genesis link from another's only if there are none, or a collision is produced |
| HashChain.RowText | src/internal/server/services/audit/chain.go:77-83 | the text hashed for a row is the 32 bytes of its predecessor's hash and then its own canonical bytes |
| HashChain.VerifyChain | src/internal/server/services/audit/verify.go:49-80 | answers OK if and only if the chain is linked from its genesis, counted and ends in its tip; otherwise names the first faulty row and which of link, content or hash is at fault, or else a wrong count, or else a wrong tip; month and row count are the input's |
| HashChain.AnyGenesisVerifies | src/internal/server/services/audit/verify.go:57-79 | from any starting hash, any content has a chain that verifies |
| HashChain.EmptyTipVerifies | src/internal/server/services/audit/verify.go:76-78 | without a tip in the anchor, every prefix of a sound chain verifies with its own count |
| HashChain.GenesisApart | src/internal/server/services/audit/chain.go:64-83 | the text hashed for a genesis is never a text hashed for a row |
| HashChain.TamperEvidence | src/internal/server/services/audit/chain.go:13-18 | two linked chains of one team and month with equal tips carry the same canonical rows in the same order, lengths included, or a collision is produced |
| HashChain.SameRowsSayTheSame | src/internal/server/services/audit/chain.go:13-23 | rows with equal canonical bytes agree in every field |
| AuditLog.StepKeeps | src/internal/server/db/audit.go:60-183 | every step of every transaction, committing or aborting, and every unhashed insert keeps the ledger invariant |
| AuditLog.RunSound | src/internal/server/db/audit.go:60-183 | in every state any interleaving reaches, each chain's committed rows link genesis to tip in id order, each hash is that of predecessor and hashed core, and count, first and last row id match |
| AuditLog.WrittenFaithful | src/internal/server/db/audit.go:100-146 | the stored row still has the bytes that were hashed exactly when jsonb gives back documents of equal canonical form |
| AuditLog.NegativeZeroUnfaithful | src/internal/server/services/audit/chain.go:20-23 | a concrete document, -0, for which it does not |
| AuditRepository.Repository.InsertAuditLog | src/internal/server/db/audit.go:29-184 | succeeds exactly when ids parse, documents are storable and the table takes the row; then one row is appended to its chain and its head advanced, the bytes hashed for it read back as what the request said, and its columns hold it; otherwise nothing is committed and at most one id is used up |
| AuditRequest.HashedRequest | src/internal/server/db/audit.go:100-146 | the hashed bytes decode to the request's own team, actor, source, subject, action, documents, preview, trimmed trace, outcome, status and time cut to microseconds, under the row's id |
| AuditRequest.TrimSpaceTrims | src/internal/server/db/audit.go:100-115 | trimming removes exactly the white space at both ends; a text is blank when nothing is left |
| AuditRequest.RunTraced | src/internal/server/db/audit.go:60-183 | in every state any interleaving reaches, each hashed row records a request that began in the run |
| AuditRepository.Repository.LockHead | src/internal/server/db/audit.go:75-91 | creating the head if missing and locking it is the protocol's lock step |
| AuditRepository.Repository.WriteRow | src/internal/server/db/audit.go:100-160 | encoding, hashing, inserting and advancing the head is the protocol's write step |
| AuditRepository.Repository.CommitTx | src/internal/server/db/audit.go:183 | the row and the head become visible together |
| AuditRepository.OpenSteps | src/internal/server/db/audit.go:60-98 | stamping, locking and allocating leave the transaction holding the committed head and the next id, nothing committed |
| AuditRepository.CloseSteps | src/internal/server/db/audit.go:100-183 | the write and commit steps of one transaction amount to one appended row and one advanced head |
| AuditRepository.AbortSteps | src/internal/server/db/audit.go:67-98 | a rollback after the id was allocated leaves only a gap in the ids |
| AuditExport.HexRoundTrip | src/internal/server/audit_export_handlers.go:125-131 | hashes survive hexadecimal transport |
| WireFormat.HexLayout | src/internal/server/audit_export_handlers.go:125-131 | each byte is two lower-case digits, the high half first |
| WireFormat.EntrySays | src/internal/server/audit_handlers.go:154-182 | what an exported row says about the stored one, field by field; null documents and the empty trace id are left out |
| AuditExport.ExportPreserves | src/internal/server/audit_handlers.go:154-182 | a stored row, exported and read back by the verifier, has the same canonical bytes and the same hashes although null documents and the empty trace id are dropped |
| AuditExport.Export | src/internal/server/services/audit/export.go:92-141 | fetching one row beyond the cap yields the first rows of the selection and a cursor exactly when more remain, with the head of every month of the range that has one, once each in month order; or the validation error |
| AuditExport.HeadsListed | src/internal/server/db/audit.go:455-462 | a head is listed if and only if the team has it and its month lies in the range; months strictly ascend |
| AuditExport.AfterCursor | src/internal/server/db/audit.go:370-384 | the query behind a cursor selects exactly the window's rows not yet returned |
| AuditExport.NextPage | src/internal/server/services/audit/export.go:107-124 | each page extends the returned prefix of the window and its cursor resumes after it |
| AuditExport.FetchFullExport | src/internal/cli/audit_verify.go:186-208 | for any cap, the merged pages are the window's rows once each in (created_at, id) order, with the anchor of every month of the range that has a chain, once each in month order; the loop ends |
| AuditVerify.Bucket | src/internal/cli/audit_verify.go:33-43 | every hashed entry lands in its month's bucket in order, the rest are counted as pre-chain |
| AuditVerify.VerifyAnchors | src/internal/cli/audit_verify.go:45-64 | exactly one verdict per anchor, in order, each OK if and only if that anchor's chain is sound |
| AuditVerify.MissingAnchors | src/internal/cli/audit_verify.go:66-75 | one failed verdict, with its row count, for each month that has hashed rows and no anchor, and no other |
| AuditVerify.VerifyEnvelope | src/internal/cli/audit_verify.go:30-78 | the report is OK if and only if every anchored chain is sound and no hashed row lacks an anchor; every anchor has the verdict of its chain, reason, break and count included, every unanchored month one of its own, and there is no other; months ascend |
| AuditVerify.PreChainCounted | src/internal/cli/audit_verify.go:33-43 | the pre-chain count is the number of entries without a hash |
| AuditMonths.MonthsInRange | src/internal/cli/audit_verify.go:257-268 | every month from since's to until's, once, in order |
| AuditMonths.FetchChainsForVerify | src/internal/cli/audit_verify.go:217-253 | every row of the touched months' windows and the anchor of every month once, whatever the page cap |
| AuditEndToEnd.ResortedRows | src/internal/cli/audit_verify.go:50-51 | sorting a month's fetched rows by id restores commit order, whatever order their timestamps have |
| AuditVerdict.ChainVerdict | src/internal/cli/audit_verify.go:46-64 | a chain written by the protocol verifies if and only if its rows are clean, or a collision is produced |
| AuditVerdict.CleanVerifies | src/internal/cli/audit_verify.go:24-78 | no false break: a clean range of any reachable ledger verifies |
| AuditVerdict.VerifiedClean | src/internal/cli/audit_verify.go:24-78 | no silent pass: a range that verifies is clean, or a collision is produced |
| AuditVerdict.Verify | src/internal/cli/audit_verify.go:117-181 | fetch and verify against any reachable ledger: OK if and only if every hashed row in range is clean, or a collision is produced |
| AuditVerdict.LateRowBreaks | src/internal/cli/audit_verify.go:232-234 | a reachable one-row ledger, stamped in a month's last fraction of a second, is reported broken |
| AuditAnchor.AnchorPins | src/internal/server/services/audit/chain.go:13-18 | any row list that verifies against a reachable ledger's own anchor carries, in order, the content that chain was written with, or a collision is produced |
| AuditAnchor.VerifiedIsLedger | src/internal/cli/audit_verify.go:24-78 | so does every chain of a verified envelope whose anchor is the ledger's own, whatever its entries |
| AuditAnchor.ExportAnchored | src/internal/server/services/audit/export.go:114-141 | in a full export of a ledger that satisfies the invariant, every hashed entry has its month's head among the anchors |
| AuditAnchor.SplitReadVerdict | src/internal/server/services/audit/export.go:107-127 | with rows read at one state of the ledger and the head at a later one, a chain verifies if and only if nothing was committed to it in between and it is clean, or, for the latter, a collision is produced |
| AuditOrder.ExportOrderIff | src/internal/server/db/audit.go:347-352 | export order is commit order if and only if timestamps rise with ids |
| AuditOrder.UnsortedVerdict | src/internal/server/db/audit.go:347-352 | without the re-sort a clean chain links if and only if timestamps rise with ids, or a collision is produced |
| AuditOrder.ResortNeeded | src/internal/cli/audit_verify.go:50-51 | a reachable ledger of two concurrent appends whose rows link after the re-sort and, short of a collision, not before |
| RateLimit.Limiter.Allow | src/internal/server/middleware/ratelimit/limiter.go:55-75 | reserving and cancelling leaves the bucket exactly refilled and, if admitted, one token down; the answer is the wait for that token |
| RateLimit.Limiter.SweepIdle | src/internal/server/middleware/ratelimit/limiter.go:100-121 | exactly the buckets idle for longer than the limit go, and their number is returned |
| RateLimit.Limiter.InvalidateKey | src/internal/server/middleware/ratelimit/limiter.go:77-91 | exactly the buckets whose name starts with the key's prefix go |
| RateLimit.ReserveCancel | src/internal/server/middleware/ratelimit/limiter.go:64-74 | a cancelled reservation is as if only the refill had happened |
| RateLimit.RetryExact | src/internal/server/middleware/ratelimit/limiter.go:52-54 | after a refusal the same call succeeds at a later time if and only if the reported wait has passed |
| RateLimit.BucketKeyInjective | src/internal/server/middleware/ratelimit/limiter.go:179-181 | two (scope, key, category) triples share a bucket only if they are equal, bars in keys included |
| RateLimit.InvalidateReach | src/internal/server/middleware/ratelimit/limiter.go:79-91 | which triples an invalidation reaches, exactly |
| RateLaws.Isolation | src/internal/server/middleware/ratelimit/limiter.go:144-165 | a bucket's answers over any run depend only on its own calls, the sweeps and the invalidations that reach it |
| RateLaws.TokensBounded | src/internal/server/middleware/ratelimit/limiter.go:167-177 | after any run tokens lie between zero and the burst if the quota divides a minute, and otherwise above minus one nanosecond's refill |
| RateLaws.RefusedIsFree | src/internal/server/middleware/ratelimit/limiter.go:69-73 | a refused call costs its bucket nothing at any later time |
| RateLaws.EvictionInvisible | src/internal/server/middleware/ratelimit/limiter.go:100-121 | a limiter that sweeps at any points of any run answers every call, waits included, as one that never does |
| RateExact.InvisibleIff | src/internal/server/middleware/ratelimit/limiter.go:22-24 | for any table that limits anything, eviction is invisible over all runs if and only if buckets are kept for a minute, or a nanosecond less and every quota divides a minute |
| RateExact.SoonNoticed | src/internal/server/middleware/ratelimit/limiter.go:100-121 | buckets dropped two nanoseconds or more too soon: a run whose answers the sweep changes |
| RateExact.DebtNoticed | src/internal/server/middleware/ratelimit/limiter.go:100-121 | dropped one nanosecond too soon, for a quota that does not divide a minute: another |
| RateLaws.DefaultsWhole | src/internal/server/middleware/ratelimit/plan.go:66-97 | the default quotas all divide a minute |
| RateExact.PlanCells | src/internal/server/middleware/ratelimit/plan.go:54-61 | each of a plan's five numbers is how many calls of its own scope and category are admitted at one instant from an empty pool; zero or less, and a team's reads, have no limit |
| RateExact.UnknownPlan | src/internal/server/middleware/ratelimit/plan.go:19-27 | a plan the table does not know is served like the free plan, and without limit if that is missing |
| RateExact.DefaultsGrow | src/internal/server/middleware/ratelimit/plan.go:66-97 | no default tier admits less than the one before it |
| RateLaws.RateBound | src/internal/server/middleware/ratelimit/limiter.go:55-75 | after any history, any window of d nanoseconds admits at most q + q*d/minute calls if q divides a minute, and otherwise less than one nanosecond's refill more, sweeps and other buckets in between |
| RateExact.RateBoundIff | src/internal/server/middleware/ratelimit/limiter.go:55-75 | the bound of q + q*d/minute holds over all runs if and only if q divides a minute and buckets are kept for a minute less a nanosecond |
| RateExact.TokensIff | src/internal/server/middleware/ratelimit/limiter.go:167-177 | tokens never fall below zero, over all runs, if and only if the quota divides a minute |
| RateExact.EarlyBeatsBound | src/internal/server/middleware/ratelimit/limiter.go:68-74 | for every quota that does not divide a minute, a run that admits one call too many and leaves the bucket below zero |
| RateExact.SoonBeatsBound | src/internal/server/middleware/ratelimit/limiter.go:100-121 | for buckets dropped too soon, a run that admits two bursts within less than a minute |
| MigrationLint.StripCommentsAndStrings | src/internal/server/db/migrationlint/lint.go:142-200 | the in-place pass with its nested loops computes exactly what the lexer defines, and ends |
| MigrationLint.LexKeepsOrBlanks | src/internal/server/db/migrationlint/lint.go:142-145 | length is preserved and every byte is kept or becomes a space |
| MigrationLint.LiteralErased | src/internal/server/db/migrationlint/lint.go:174-193 | a literal leaves a space for each quote and, of its text, only the line breaks |
| MigrationLint.OpenLiteralErased | src/internal/server/db/migrationlint/lint.go:174-193 | one that is never closed does too, and loses its last byte whatever it is |
| MigrationLint.LineCommentErased | src/internal/server/db/migrationlint/lint.go:149-157 | a line comment leaves spaces up to its line break |
| MigrationLint.BlockCommentErased | src/internal/server/db/migrationlint/lint.go:158-173 | a block comment leaves spaces and line breaks, its closer being the first after the opening slash |
| MigrationLint.OpenBlockErased | src/internal/server/db/migrationlint/lint.go:158-173 | one that is never closed does too, but for its last byte |
| MigrationLint.FirstOpener | src/internal/server/db/migrationlint/lint.go:146-200 | these are all the cases: what precedes a text's first quote or opener has neither |
| MigrationLint.StripIdempotent | src/internal/server/db/migrationlint/lint.go:146-200 | stripping twice is stripping once, and the unchanged texts are exactly those without quotes and comment openers |
| MigrationLint.LexNewlines | src/internal/server/db/migrationlint/lint.go:190-193 | newlines are exactly preserved, but for the last byte of an unterminated literal |
| MigrationLint.SameLines | src/internal/server/db/migrationlint/lint.go:270-272 | every position in the file has the same line number before and after stripping |
| MigrationLint.LineOfCounts | src/internal/server/db/migrationlint/lint.go:270-272 | a position's line number is one more than the newlines before it |
| MigrationLint.LastLine | src/internal/server/db/migrationlint/lint.go:270-272 | the position just past the end does too, if and only if no literal swallowed a final newline |
| UsageLedger.Ledger.OpenAllocationInterval | src/internal/server/db/usage.go:75-94 | a known pod is left alone and a new one gets its row, open, with what the call said; a negative allocation is refused |
| UsageLedger.Ledger.CloseAllocationInterval | src/internal/server/db/usage.go:96-112 | closes an open interval, recording end, estimate, reason and the time of closing, and says whether it did; refused exactly when the table's checks would be breached, and then without effect |
| UsageLedger.Ledger.ReopenGuessedInterval | src/internal/server/db/usage.go:125-136 | reopens only a close that was a guess, leaving no trace of it, and says whether it did; refused exactly when the table's checks would be breached |
| UsageLedger.Ledger.TouchAllocationIntervals | src/internal/server/db/usage.go:138-157 | brings last_seen_at of the named open intervals to the later of what it was and what was seen, changes nothing else, and counts them |
| UsageLedger.RefusedIff | src/migrations/00020_usage_allocation.sql:35-44 | on a sane ledger the checks refuse exactly a close that would end an open interval before its start |
| UsageLedger.RunKeeps | src/internal/server/db/usage.go:75-157 | over any interleaving: one row per pod, start and allocation fixed, last_seen_at never back, end within last_seen_at, end, reason and closed_at null together, authoritative closes never changed |
| UsageLedger.StepTwice | src/internal/server/db/usage.go:75-157 | every statement is idempotent, even when repeated later by the clock |
| UsageLedger.FirstCloseWins | src/internal/server/db/usage.go:96-99 | a second close of a pod changes nothing, whatever it says |
| UsageRollup.Integrate | src/internal/server/services/usage/rollup.go:28-61 | each total is the sum over the intervals of what it is named for times the whole seconds spent in the window; a single interval gives exactly its own |
| UsageRollup.IntegralColumns | src/internal/server/services/usage/rollup.go:28-61 | the six totals are cpu, memory, gpu, one and, for estimated intervals, one times the seconds, and a count of the intervals that have any |
| UsageRollup.OwnColumns | src/internal/server/services/usage/rollup.go:49-51 | lists that differ only in cpu differ only in the cpu total, and likewise for memory and gpu |
| UsageRollup.IntegralPermutes | src/internal/server/services/usage/rollup.go:28-61 | the order in which intervals are listed does not matter |
| UsageRollup.EstimatedWithin | src/migrations/00020_usage_allocation.sql:61-62 | a rollup row always meets its table's check |
| UsageRollup.SplitAtMidnight | src/internal/server/services/usage/rollup.go:63-69 | cutting a window loses no time, and exactly when it loses a second |
| UsageBooks.ListedTotals | src/internal/server/db/usage.go:236-271 | the overlap query leaves out only rows that add nothing to the day |
| UsageBooks.Rollupper.RollupOne | src/internal/server/services/usage/rollup_service.go:99-111 | replaces a day's row by exactly what the whole ledger says of that day, each total under its own name, or refuses above the row limit |
| UsageBooks.PlayKeeps | src/internal/server/db/usage.go:273-297 | over any run of observers and passes, each stored rollup is what the ledger it was read from said, and each row has evolved from its reading only in tracked ways |
| UsageBooks.PassSettles | src/internal/server/db/usage.go:276-297 | an uninterrupted pass leaves its day exact and no longer pending |
| UsageBooks.ChangedPendsIff | src/internal/server/db/usage.go:451-501 | a row that no longer counts as its day's rollup counted it makes the day pending if and only if it is none of the three escapes |
| UsageBooks.RollupExact | src/internal/server/db/usage.go:451-501 | a past day that is not pending has an exact rollup, or a row escaped |
| UsageBooks.EscapeIsWrong | src/internal/server/db/usage.go:459-465 | a single escaped row makes the stored rollup wrong |
| UsageBooks.ClosedIsCounted | src/internal/server/db/usage.go:459-501 | after a close at c each past day it spans is pending until a rollup is stored at c or later, and one also read since c counts the interval as closed |
| UsageBooks.CloseIsNeverLost | src/internal/server/db/usage.go:459-501 | the same at every later time of every run, for closes the cluster vouches for, across any guesses and reopens before |
| UsageBooks.CloseLoses | src/internal/server/db/usage.go:471-484 | a close loses a settled past day if and only if it ends before that day an interval the day had counted |
| UsageBooks.ReopenLoses | src/internal/server/db/usage.go:471-484 | a reopen loses a settled past day if and only if it changes the row's part in a rollup that knew the row |
| UsageBooks.StoreLoses | src/internal/server/services/usage/rollup_service.go:99-111 | a store leaves its day exact, or pending, if and only if every row still counts as the pass had read it; and never pending |
| UsageBooks.LateCloseRun | src/internal/server/db/usage.go:466-484 | a reachable ledger whose over-billed day never comes back |
| UsageBooks.ReopenRun | src/internal/server/db/usage.go:114-136 | a reachable ledger whose day keeps a disproved guess |
| UsageBooks.RaceRun | src/internal/server/services/usage/rollup_service.go:99-111 | a reachable ledger whose close slipped between a pass's reading and storing |
| UploadQuota.UploadTable.InsertUpload | src/internal/server/db/uploads.go:32-41 | adds the row unless its id is taken |
| UploadQuota.UploadTable.PinUpload | src/internal/server/db/uploads.go:66-82 | pins exactly a received row of the team, now and until the given time, and changes nothing else; every other case is the same "not found" |
| UploadQuota.UploadTable.MarkUploadGCd | src/internal/server/db/uploads.go:156-166 | collects a row once, stamps it, and leaves every other row and collected rows alone |
| UploadQuota.UploadTable.SumInertBytesByTeam | src/internal/server/db/uploads.go:111-125 | the bytes of the team's received and pinned rows |
| UploadQuota.NoTierRejectsAll | src/internal/server/uploads_quota.go:49-62 | with no tier to fall back to every upload is refused, for the pinned cap |
| UploadCaps.RefusedFor | src/internal/server/uploads_quota.go:90-145 | which cap refuses, in terms of the team's pinned rows, its rows of the last day and its bytes: the first one reached, in that order |
| UploadQuota.OvershootBound | src/internal/server/uploads_quota.go:83-144 | with at most k uploads between check and insert, no run of checks, inserts, pins, collections and failures takes a team more than k - 1 archives over its cap; with k = 1 never over it |
| UploadQuota.OvershootAttained | src/internal/server/uploads_quota.go:83-86 | the bound is exact: k overlapping uploads reach it |
| UploadCaps.DailyBound | src/internal/server/uploads_quota.go:118-129 | with at most k uploads between check and insert, no day of any run holds more than k - 1 uploads over the daily cap |
| UploadCaps.PinnedUnbounded | src/internal/server/uploads_quota.go:105-116 | whatever the pinned cap, as many uploads as the other caps leave room for can be made one at a time and all be pinned |
| UploadQuota.RowsMove | src/internal/server/db/uploads.go:66-166 | over any run a row keeps its identity and size, a pin keeps its terms, a collected row never changes |
| UploadHandler.HandleUpload | src/internal/server/uploads.go:173-317 | a row is recorded if and only if there is an actor, the quota check passed, the body is acceptable and the id is new; nothing else touches the table |
| UploadHandler.ReadParts | src/internal/server/uploads.go:238-289 | the part loop finds the one archive of a well-formed body, or reports a fault if and only if there is none such |
| UploadHandler.HandledIsRun | src/internal/server/uploads.go:183-317 | an upload handled on its own is a run of the quota protocol |
| JobQueue.JobTable.Claim | src/internal/server/db/reconciler.go:102-121 | of any claims on a pending job exactly the first succeeds |
| JobQueue.JobTable.Complete | src/internal/server/db/reconciler.go:123-138 | completes any job but a failed one, keeping the first stamp |
| JobQueue.JobTable.Reschedule | src/internal/server/db/reconciler.go:140-157 | one more attempt, pending again, with its error and next time |
| JobQueue.JobTable.FailPermanently | src/internal/server/db/reconciler.go:159-175 | fails a job, keeping the first stamp |
| JobQueue.RunKeeps | src/internal/server/services/reconciler/runner.go:233-281 | over any run of any number of workers, crashes anywhere: one holder at a time, held jobs in progress, completed_at exactly on ended jobs, attempts equal to reschedules and within the cap plus the claims on outdated views |
| JobQueue.AllRuns | src/internal/server/db/reconciler.go:102-175 | the same for every run from an empty table, spelled out for one job and any two workers |
| JobQueue.RunSettled | src/internal/server/services/reconciler/runner.go:233-281 | completed and failed_permanently are final, stamp included, and so is the fate of a job whose worker died |
| JobTimes.FinishReaches | src/internal/server/services/reconciler/runner.go:248-281 | a finished job is completed and stamped, a broken one failed and stamped, and one to be retried pending with one more attempt, its error and its next time, or failed if the view says it was the last attempt; no other job changes |
| JobTimes.RunRests | src/internal/server/db/reconciler.go:60-66 | a pending job on nobody's list is left as it is until its time by every run |
| JobTimes.EarlyIff | src/internal/server/db/reconciler.go:111-116 | some run takes a pending job up before its time if and only if a worker still has it on an earlier list |
| JobRuns.CapPassedIff | src/internal/server/services/reconciler/runner.go:270-281 | a worker takes a job's attempts past the cap if and only if it retries a job at the cap on a view below it |
| JobRuns.CapExceeded | src/internal/server/services/reconciler/runner.go:233-281 | for every n, a run with n claims on outdated views and n attempts past the cap |
| JobRuns.AbandonedForever | src/internal/server/services/reconciler/runner.go:233-281 | after enqueue, list, claim and a crash the job is in progress for good, whatever happens later |
| CappedWriter.CapWriter.Write | src/internal/cli/upload_pack.go:450-480 | what fits under the cap reaches the output; the error is the sink's or the cap's, exactly |
| CappedWriter.MultiWriter.Write | src/internal/cli/upload_pack.go:125-130 | hash and counter see a write only when all of it got through |
| CappedWriter.Packed | src/internal/cli/upload_pack.go:124-130 | however the input is cut into writes the output is its prefix up to the cap, hash and counter agree on a first part of it, and on all of it if and only if no write straddled the cap |
| CappedWriter.RefusedIff | src/internal/cli/upload_pack.go:450-480 | a write is refused if and only if it would pass the cap or finds it full, empty writes included |
| CappedWriter.NoCap | src/internal/cli/upload_pack.go:453-463 | without a cap everything reaches output, hash and counter |

## Left out

- Hash collisions, float64 arithmetic, UUID syntax, jsonb, and which rows the audit table takes (its checks, foreign keys and storable text): parameters; of float64 printing only that it gives a number token and is idempotent is assumed.
- encoding/json's limit of 10,000 nested values, and its replacement of lone surrogates only as far as string literals need it.
- bytes.TrimSpace and strings.TrimSpace trim ASCII spaces here; the other Unicode spaces are not modelled.
- Go struct and map identity, pointers to copies, and int64 overflow of ids, byte sums and CPU-seconds: integers are unbounded.
- Times are UTC and in the years 0 to 9999; a zero time.Time stands for an absent bound.
- HTTP, cursor encoding (taken as lossless), CSV and JSON envelopes, audit entries' actor login (not hashed).
- AuditExport.FetchFullExport: all pages read one committed snapshot, and an open upper bound is the same instant for every page. AuditAnchor.SplitReadVerdict covers heads read later than rows; pages read at different moments are not modelled.
- Partition rollover, archiving and dropping; a verified range is taken to have all its months.
- The webhook enqueuer inside the append transaction, which can only turn a commit into an abort.
- Writers of unhashed audit rows are one step that adds a row with an empty hash.
- RateLimit.Limiter.Allow: one atomic step, so the interleavings of two callers inside the entry lookup are not modelled, and float64 tokens are exact integers.
- RateLaws.EvictionInvisible: assumes a clock that never goes back, as RateBound does; a bucket's own handling of a clock that does is modelled.
- The linter's regular expressions and rules; only the stripping pass and line numbers they rest on.
- UsageLedger.RunKeeps: retention deletes are excluded, and with them foreign keys and cascades.
- UsageBooks.PlayKeeps: NOW() is the moment a statement takes effect, strictly later for each; one pass at a time reads and stores, and the pending list is not truncated.
- The choice of statements by the watcher and the reconcile plan: any sequence of them is allowed.
- CalendarLaws.RangeLimit: for ranges whose limit falls in a year a timestamp can write.
- UploadQuota.OvershootBound: plans are fixed during a run, no stored archive exceeds the reserved size (the ingestion store is not part of this model), and the three reads of a check happen together.
- UploadHandler.HandleUpload: an archive stored for a request that then fails stays in the store; that store is not part of this model.
- JobQueue.RunKeeps: a worker lists again only after working off its last list, as the runner does; backoff lengths are arbitrary, and zero in the runs of JobRuns.
- CappedWriter.Packed: an output that never fails; single writes to one that does are covered by the Write methods.
- The 429 retry loop of the HTTP client, RBAC, billing plans and the other easy members.
