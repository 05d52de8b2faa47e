# Verified model of the PII gateway's protocols and verdict logic

This project models, in Dafny, the algorithms and protocols of the PII gateway that have to hold
over every input or every run, and proves them: the token-bucket rate limiter, the HMAC replay
defence, the pipeline from analyzer hits to one response code, database policy resolution, the
idempotency cache and its concurrent handlers, the attachment worker, keyset pagination of the
audit log, the checksums, the policy cache's double-checked reload, the feedback alerter and the
encryption envelope across key rotations.

`dafny verify dfyconfig.toml` checks everything.

| file | models |
|---|---|
| `RateLimit.dfy` | app/security/rate_limit.py |
| `ReplayDefence.dfy` | app/security/hmac_auth.py |
| `Policies.dfy`, `PolicyEngine.dfy` | app/core/policies.py, app/core/policy_engine.py, policies in app/db/crud.py and app/db/models.py |
| `Detect.dfy` | app/api/detect.py |
| `Idempotency.dfy` | app/security/idempotency.py and its use in app/api/detect.py |
| `AttachmentJob.dfy` | app/workers/attachment_processor.py and the Case A/B/C split of app/api/detect.py |
| `AuditLog.dfy` | audit listing in app/db/crud.py and app/api/admin_audit.py |
| `Checksum.dfy` | app/core/checksum.py, app/core/recognizers/kr_rrn.py |
| `PolicyCache.dfy` | `PolicyCache` of app/core/policy_engine.py |
| `FeedbackAlerter.dfy` | app/workers/feedback_alerter.py |
| `Base64.dfy`, `Envelope.dfy` | app/security/encryption.py, section 4 of RFC 4648 |
| `Ordering.dfy`, `Sets.dfy`, `Wrappers.dfy` | stable sorting, set sizes and `Option`, shared |

Objects that update their fields in place are classes whose methods are proved against functions
of the old state; whole-run results are lemmas about those functions. Concurrent behaviour is a
state machine over its atomic steps with every interleaving allowed. Clocks, network outcomes,
database failures, cancellations and the analyzer's hits are inputs.

Where the code and its own documentation disagree, the code is modelled:

- The comment beside `NONCE_RETENTION_SECONDS` says the retention is more than twice the window; it
  is exactly twice. `ReplayDefenceIff` shows that this is just enough, because the vacuum deletes
  strictly older rows only.
- The module text of app/core/policies.py calls `high` the most protective strictness; its
  threshold is the highest, so `high` never blocks more than `low` (`LowerThresholdBlocksMore`) and
  blocks less on a hit between the thresholds (`HighBlocksLess`); `StrictnessMattersIff` says
  exactly when the two agree.

Properties one might expect, and that the code has only under a condition:

- A reload request that lands while a rebuild is in flight is absorbed by it; otherwise it always takes
  effect (`RequestTakesEffectIff`).
- Reservations whose handler ends in an early error return are neither completed nor released, so
  a retry is answered "in progress" exactly until the entry ages out (`HandlersAreIdempotent`).
- COMPLETED is not terminal: any job whose webhook call raises goes from COMPLETED to FAILED
  (`RaisingWebhookFailsCompletedJob`), and `CompletedThenFailedIff` says in full when that happens.
- A BLOCK is reported without the DELETE that should follow when the webhook call or the write of
  its outcome fails (`BlockWithoutDeleteIff`).
- A request id starts at most one attachment job within the TTL unless its handler raises between
  starting the job and completing the request (`OneJobPerRequest`, `JobRepeatsIff`).
- Calls admitted in a window obey the per-minute bound but for those already between their two
  buckets when it began (`HeldUpCallsExceedMinuteBound`, `WaitingCallsBound`); atomic calls always
  do (`AtomicCallsBound`).
- A denied `check_caller` call leaves no trace only if the minute bucket denied it
  (`DeniedCallerInvisibleIff`).
- A caller that waits the `retry_after` it was given can be denied again by the other bucket
  (`WaitingRetryAfterCanFail`); `HourDenialRetry` and `MinuteDenialRetry` say exactly when.
- Cutting to three hits per span can change the response code (`RepeatedTypeHidesAnother`);
  `TruncationHarmlessIff` says when it does not. It also makes the code depend on detection order,
  but only through a tie at the cut (`TieAtCutMatters`, `OnlyTiesMatter`).

## Model

| member | source | states |
|---|---|---|
| RateLimit.RateLimiter.Consume | app/security/rate_limit.py:30-62 | Reply and new store are those of one charge of the key's live bucket: missing or expired is full, refill is capped, a denial costs nothing and says how long to wait, the expiry is pushed out |
| RateLimit.RateLimiter.CheckCaller | app/security/rate_limit.py:99-114 | Allowed iff both buckets allow; the first denial is the answer and a minute denial leaves the hour bucket untouched |
| RateLimit.KeysApart | app/security/rate_limit.py:104-111 | None of one caller's two bucket keys is a key of another caller |
| RateLimit.IpKeysApart | app/security/rate_limit.py:104-119 | Nor is it a key of the per-address bucket |
| RateLimit.CallersAreIsolated | app/security/rate_limit.py:99-114 | However the script calls of many callers interleave on one store, each caller is answered as if the others had made none |
| RateLimit.LimitsRefillAtTheirRate | app/security/rate_limit.py:103-114 | A drained bucket regains n/60 or n/3600 tokens a second up to n; a fresh one holds n |
| RateLimit.KeysOutliveRefill | app/security/rate_limit.py:57-59 | A write stamps the bucket now and the key outlives a complete refill by sixty seconds, rounded up |
| RateLimit.ChargeCosts | app/security/rate_limit.py:48-57 | Allowed iff the refilled tokens cover the cost; an allowed call is charged it and told to wait 0, a denied one is charged nothing |
| RateLimit.TokensStayInRange | app/security/rate_limit.py:45-57 | Over every run, whatever the clock does, tokens stay between 0 and the capacity |
| RateLimit.AdmissionBound | app/security/rate_limit.py:30-62 | In any stretch of any run the admitted cost is at most capacity + rate × total forward clock movement in it |
| RateLimit.CallerWindowBound | app/security/rate_limit.py:99-114 | For every interleaving of concurrent calls of one caller, on a store with expiring keys that others use as well: calls passing the minute bucket in a window obey the minute bound, calls admitted in it the hour bound, calls begun and admitted in it both |
| RateLimit.AdmittedBound | app/security/rate_limit.py:99-114 | All calls admitted in a window obey the hour bound, and the minute bound plus the number that had passed the minute bucket before the window |
| RateLimit.WaitingCallsBound | app/security/rate_limit.py:99-114 | That excess is at most the number of calls waiting between their two buckets when the window begins, so with none waiting both bounds hold for all admitted calls |
| RateLimit.AtomicCallsBound | app/security/rate_limit.py:99-114 | For calls whose two steps are not separated, all calls admitted in any T seconds number at most n + n·T/60 and k + k·T/3600 |
| RateLimit.CheckCallerBound | app/security/rate_limit.py:99-114 | For every interleaving, all admitted calls: at most k + k·T/3600, and n + n·T/60 plus the straddling ones |
| RateLimit.HeldUpCallsExceedMinuteBound | app/security/rate_limit.py:103-114 | For every limit n and every w, a run in which w calls wait when the window begins and n + w are admitted in it, against a minute bound of n |
| RateLimit.DeniedCallsAreInvisible | app/security/rate_limit.py:45-57 | Deleting a denied call from a run changes no other outcome |
| RateLimit.DeniedCallerInvisibleIff | app/security/rate_limit.py:99-114 | A denied check_caller call changes no outcome of later unit-cost calls on its two buckets iff the minute bucket denied it |
| RateLimit.RefillComposes | app/security/rate_limit.py:45-46 | Refilling at two times in a row equals refilling once at the later |
| RateLimit.RetryAfterIsExact | app/security/rate_limit.py:45-57 | After a denial and any denied polling, the same call at or after t + retry_after is allowed iff its cost fits the capacity, and at or before t + retry_after − 1 it is denied |
| RateLimit.HourDenialRetry | app/security/rate_limit.py:99-114 | After an hour denial and the wait it asked for, check_caller allows the retry iff the minute bucket has made good the token the denied call spent |
| RateLimit.MinuteDenialRetry | app/security/rate_limit.py:99-114 | After a minute denial and the wait it asked for, it allows the retry iff the hour bucket holds a token then |
| RateLimit.WaitingRetryAfterCanFail | app/security/rate_limit.py:99-114 | Three calls from a fresh store in which the retry after exactly retry_after seconds is denied |
| RateLimit.ExpiredIsFull | app/security/rate_limit.py:58-59 | A bucket untouched for its time to live has refilled completely |
| RateLimit.ExpiryIsInvisible | app/security/rate_limit.py:40-59 | A store that expires or purges keys gives the same decisions and retry_after values, on all keys, as one that never forgets |
| ReplayDefence.NonceTable.ClaimNonce | app/security/hmac_auth.py:133-147 | Claims a (key, nonce) pair iff it is not in the table; otherwise the table is unchanged |
| ReplayDefence.NonceTable.VerifyRequest | app/security/hmac_auth.py:180-239 | The reply has the first failing check's code, and only an accepted request adds its nonce row, stamped now |
| ReplayDefence.NonceTable.VacuumOldNonces | app/security/hmac_auth.py:150-158 | Deletes exactly the rows strictly older than the retention and returns their number |
| ReplayDefence.CanonicalIsInjective | app/security/hmac_auth.py:97-99 | The signed string determines timestamp, nonce, method, path and body digest |
| ReplayDefence.OnlyAuthenticRequestsReachTheTable | app/security/hmac_auth.py:180-229 | Accepted iff authentic with an unclaimed nonce; REQ-4013 iff authentic with a claimed one |
| ReplayDefence.RefusalCodes | app/security/hmac_auth.py:194-229 | An iff for each of REQ-4010 to REQ-4014 and for acceptance, in headers, parsed timestamp, clock, key row, signature and nonce, saying which failure wins |
| ReplayDefence.DeployedTimes | app/security/hmac_auth.py:68-69 | As deployed: accepted within 300 s either way, and a nonce row is deleted once it is more than 600 s old |
| ReplayDefence.StepKeepsInv | app/security/hmac_auth.py:123-158 | Every step keeps: each row stems from an accepted request, each accepted request not older than the retention still has its row, nothing is accepted twice |
| ReplayDefence.RunKeepsInv | app/security/hmac_auth.py:123-158 | The same for every interleaving of verifications, vacuums and clock ticks |
| ReplayDefence.DeployedConstantsAreSafe | app/security/hmac_auth.py:68-69 | With 300 s and 600 s no (key, nonce, timestamp) is ever accepted twice |
| ReplayDefence.ShortRetentionReplays | app/security/hmac_auth.py:68-69 | With a retention below twice the window every request that can be accepted at all can be replayed, whatever parser, HMAC and keys |
| ReplayDefence.ReplayDefenceIffFor | app/security/hmac_auth.py:123-158 | For any primitives under which some request is authentic, all runs are replay-free iff retention ≥ 2 × window |
| ReplayDefence.ReplayDefenceIff | app/security/hmac_auth.py:123-158 | The same over all primitives at once |
| ReplayDefence.SignatureAcceptedOnce | app/security/hmac_auth.py:180-239 | Unless two strings signed in the run collide, no signature is accepted twice under one key |
| Ordering.SortKeepsDistinct | app/db/crud.py:246-248 | Sorting keeps pairwise different keys pairwise different |
| Ordering.SortSorts | app/db/crud.py:264-272 | The modelled ORDER BY yields a sorted sequence, and Sort keeps the multiset |
| PolicyEngine.PolicyTable.AddPolicy | app/db/crud.py:277-311 | Bad band and duplicate (entity, band, mode) are rejected exactly then, otherwise the row is appended; the table's constraints hold afterwards |
| PolicyEngine.FirstMatchIsNarrowest | app/core/policy_engine.py:114-163 | First match over the SQL order is the documented rule: narrowest enabled matching band, ties by highest score_min; none iff no enabled row matches |
| PolicyEngine.WinnerIsUnique | app/db/models.py:229-249 | Under the uniqueness constraint at most one row satisfies the rule |
| PolicyEngine.ResolutionIgnoresOrderAndInactiveRows | app/db/crud.py:254-274 | Resolution is the same for tables with the same enabled content, whatever their order, ids, shadow and disabled rows |
| PolicyEngine.ResolutionByBand | app/core/policy_engine.py:114-181 | In the columns' own terms: closed band, enabled mode, narrowest first, ties by highest score_min then lowest id; the code of each action; the defaults iff no row applies |
| Detect.GroupBySpan | app/api/detect.py:184-186 | Groups hits by exact span, spans and hits in order of first appearance |
| Detect.ComputeTopKPerSpan | app/api/detect.py:180-191 | Keeps the k best of each span, by a stable sort |
| Detect.SortedAtRank | app/api/detect.py:188-190 | The stable sort puts each hit at its rank: behind those that score more and those that tie and came earlier |
| Detect.KeptIffRank | app/api/detect.py:180-191 | A hit is kept iff fewer than k hits of its span score more, or tie and came earlier |
| Detect.KeptExactly | app/api/detect.py:238-242 | Of an empty text nothing is kept, otherwise the three best hits of every exact (start, end) |
| Detect.KeptOrOutscored | app/api/detect.py:180-191 | A kept hit is a raw hit; a dropped one has k kept hits of its own span scoring no lower |
| Detect.JudgeHits | app/api/detect.py:246-293 | The loop shows, logs or drops each hit as floor, band and policy say, in order |
| Detect.VisibleOne | app/api/detect.py:283-290 | A shown hit gives one detection with its own type, code, score, start and end, in its field |
| Detect.VisibleConcat | app/api/detect.py:249-291 | Detections come in the order of the hits |
| Detect.AnalyzeField | app/api/detect.py:218-293 | Empty text gives nothing; otherwise the judged top-3 hits |
| Detect.DecideBodyCode | app/api/detect.py:127-148 | BLOCK-2008 for two or more blocking types, else the first blocking code, else OK-0000 |
| Detect.DetectBody | app/api/detect.py:615-640 | The body code is BLOCK iff some kept title or body hit blocks; the detections are those of the title, then of the body; LOG_ONLY types are exactly collected |
| Detect.JudgedBlock | app/core/policies.py:74-101 | A hit surfaces with a BLOCK code iff it reaches the threshold and no policy row matches or the first match is BLOCK/WARN, and then with its field's or type's code |
| Detect.JudgedOtherwise | app/core/policy_engine.py:166-181 | LOG_ONLY and MASK act from the score floor up, MASK shows WARN-1010, a BLOCK or WARN row below the threshold shows OK-0000, and exactly the rest is dropped |
| Detect.VisibleBlocks | app/api/detect.py:246-293 | The entity types of blocking detections are exactly those of blocking hits |
| Detect.ExactCode | app/api/detect.py:127-148 | For all hits: BLOCK iff a type blocks, BLOCK-2008 iff two or more do, one type gives its table code, none gives OK-0000 |
| Detect.ExactVerdict | app/api/detect.py:218-293 | The same for a post, over the hits its top-3 cut keeps |
| Detect.VerdictByScore | app/core/policies.py:41-52 | A post is BLOCK iff some kept hit with no diverting row scores at least 0.65 at low, 0.78 at medium, 0.88 at high |
| Detect.CodeByType | app/core/policies.py:57-101 | The code of a post in which one type blocks, for each of the six listed types and for all others |
| Detect.VerdictIgnoresOrder | app/api/detect.py:127-148 | The code depends on neither detection order nor field |
| Detect.CodeIgnoresRawOrder | app/api/detect.py:180-191 | Without policy rows and with distinct types per span the order of the raw hits does not matter |
| Detect.OnlyTiesMatter | app/api/detect.py:188-190 | Under any policies, reordering the raw hits changes nothing where no tie is cut |
| Detect.TieAtCutMatters | app/api/detect.py:188-190 | A family of four tied hits on which the order decides between BLOCK-2008 and one type's code |
| Detect.BlocksByTable | app/core/policy_engine.py:118-181 | Against a policy table a hit blocks iff it reaches the threshold and the winning enabled row, if any, is BLOCK or WARN |
| Detect.VerdictIgnoresTableOrder | app/db/crud.py:254-274 | The body code is the same for policy tables with the same enabled content |
| Detect.LowerThresholdBlocksMore | app/core/policies.py:41-52 | BLOCK at high implies BLOCK at medium implies BLOCK at low |
| Detect.StrictnessMattersIff | app/core/policies.py:41-52 | The verdicts at low and high agree iff no kept hit blocks at low or a kept hit scoring at least 0.88 has no matching row or a BLOCK/WARN one |
| Detect.HighBlocksLess | app/core/policies.py:41-52 | One hit between 0.65 and 0.88 gives its BLOCK code at low and OK-0000 at high |
| Detect.TruncationKeepsVerdict | app/api/detect.py:180-191 | Without policy rows the top-3 cut never changes BLOCK versus PASS |
| Detect.TruncationHarmlessIff | app/api/detect.py:180-191 | Under any policies the cut leaves the code alone iff every blocking type has a blocking hit ranked in the first three of its span, or two types have |
| Detect.TruncationIsHarmless | app/api/detect.py:180-191 | Without policy rows and with distinct types per span the code equals that of all hits |
| Detect.RepeatedTypeHidesAnother | app/api/detect.py:180-191 | With a type repeated on one span the cut does change BLOCK-2008 into the repeated type's code |
| Idempotency.IdempotencyCache.constructor | app/security/idempotency.py:46-49 | Starts empty |
| Idempotency.IdempotencyCache.EvictExpired | app/security/idempotency.py:89-93 | Removes exactly the entries created before now − TTL |
| Idempotency.IdempotencyCache.Reserve | app/security/idempotency.py:51-66 | Evicts, then answers from a live entry or stores a new IN_PROGRESS one and answers NEW |
| Idempotency.IdempotencyCache.Complete | app/security/idempotency.py:68-75 | Stores COMPLETED with the response, stamped now |
| Idempotency.IdempotencyCache.Release | app/security/idempotency.py:77-82 | Drops an IN_PROGRESS entry and nothing else |
| Idempotency.LazyEvictionIsInvisible | app/security/idempotency.py:51-93 | On every call sequence with a forward clock, evicting only on reserve answers as a map that drops aged entries before every call |
| Idempotency.StepKeepsInv | app/api/detect.py:484-488 | Every handler step keeps exclusive holders, backed reservations, kept completions, well-formed entries, a reason for every live entry, and one live job per request id |
| Idempotency.RunKeepsInv | app/api/detect.py:484-715 | The same for every interleaving of handlers that finish or leave within the TTL |
| Idempotency.HandlersAreIdempotent | app/api/detect.py:484-715 | One holder per request id; a completed request is answered with that response for a TTL; an abandoned one stays in progress for a TTL; an id is answered NEW iff nobody works on it and nobody completed or abandoned it within a TTL; raising before completing frees the id, raising after changes nothing |
| Idempotency.OverstayingLosesTheId | app/security/idempotency.py:89-93 | A working handler's id is handed out as NEW iff the TTL since its reservation has passed |
| Idempotency.OneJobPerRequest | app/api/detect.py:862-941 | In every run, of two attachment jobs for one request id within a TTL the first was started by a handler that raised before completing |
| Idempotency.JobRepeatsIff | app/api/detect.py:897-934 | Once a job is started, a second one for its request within a TTL can follow iff the handler raises instead of completing |
| AttachmentJob.DecideAttachmentCode | app/workers/attachment_processor.py:66-81 | BLOCK-2010 iff some detection blocks, else OK-0000, with the matching verdict |
| AttachmentJob.OverallVerdict | app/workers/attachment_processor.py:84-104 | The first blocking attachment's code, else BLOCK-2008 for a blocking body, else PASS |
| AttachmentJob.OverallIsExact | app/workers/attachment_processor.py:84-104 | The first blocking attachment's code; without one BLOCK-2008 iff the body blocks; else PASS / OK-0000 |
| AttachmentJob.AttachmentBlocks | app/workers/attachment_processor.py:172-236 | A blocking detection exists iff a kept hit reaches the threshold |
| AttachmentJob.ProcessOne | app/workers/attachment_processor.py:172-254 | The result carries the attachment's id and filename; ERROR iff extraction was refused, with that code, or broke, with REQ-4042, and then no detections; PASS without pages; otherwise one BLOCK-2010 detection per kept hit at the threshold and BLOCK iff there is one |
| AttachmentJob.ResultsAt | app/workers/attachment_processor.py:298-305 | The results follow the request order one for one, up to a cancellation |
| AttachmentJob.ProcessAttachments | app/workers/attachment_processor.py:298-317 | Rows, exit and what follows are exactly those of the loop's steps up to the first failure; it ends normally iff no write fails and nothing is cancelled, with one result per attachment |
| AttachmentJob.LoopFacts | app/workers/attachment_processor.py:298-317 | Row k of the loop stores the first k + 1 results of the final list |
| AttachmentJob.Deliver | app/workers/attachment_processor.py:400-451 | Rows, callbacks and exit are exactly those of the steps from the COMPLETED write to the DELETE, up to the first that fails |
| AttachmentJob.DeliverFacts | app/workers/attachment_processor.py:400-451 | Those rows are COMPLETED with the whole list, the callbacks a prefix of webhook then, for BLOCK only, DELETE, and the end is normal iff each step reached is fine |
| AttachmentJob.WorkAndDeliver | app/workers/attachment_processor.py:298-451 | The same from the loop to the end of the try block |
| AttachmentJob.Attempt | app/workers/attachment_processor.py:284-451 | The same for the whole try block, starting from the created row |
| AttachmentJob.ProcessAttachmentJob | app/workers/attachment_processor.py:257-472 | Rows, callbacks and exit as functions of the fates: the first step that fails decides, an exception marks the last row FAILED, a cancellation does not |
| AttachmentJob.JobKeepsPromises | app/workers/attachment_processor.py:257-472 | For all attachments and failures: status never moves back, results only grow, a COMPLETED row (seen iff its write was reached and got through) holds the full list and the reported verdict, the last row is FAILED iff a step raised and the FAILED write got through, callbacks come in order and never before COMPLETED |
| AttachmentJob.JobEndsNormallyIff | app/workers/attachment_processor.py:284-451 | The job ends normally iff every step it gets to is fine |
| AttachmentJob.JobFailsIff | app/workers/attachment_processor.py:284-472 | The job ends FAILED iff the first of its steps to fail raises, rather than cancels, and the FAILED write gets through |
| AttachmentJob.JobDescribesAttachments | app/workers/attachment_processor.py:298-411 | Result i of every list a poller or the webhook sees describes attachment i, its ERROR code included; a COMPLETED row has one for each |
| AttachmentJob.CompletedThenFailedIff | app/workers/attachment_processor.py:400-472 | COMPLETED is followed by FAILED iff all earlier steps are fine, the COMPLETED write gets through and raises, or is fine and the webhook call, the write of its outcome or the DELETE is the first to fail and raises, and the FAILED write gets through |
| AttachmentJob.RaisingWebhookFailsCompletedJob | app/workers/attachment_processor.py:410-470 | Every job, whatever its attachments, whose webhook call raises ends with a COMPLETED row and then a FAILED one |
| AttachmentJob.CaseCVerdict | app/api/detect.py:648-711 | In Case C the body passed and the reported code is OK-0000 or BLOCK-2010; BLOCK iff not audit-only and a processed, extracted attachment has a kept hit at the threshold |
| AttachmentJob.CaseCRun | app/workers/attachment_processor.py:319-451 | Handler and worker together, for every post, attachment list and pattern of failures: exactly when the webhook goes out and with what, exactly when the DELETE does, and what verdict a COMPLETED row shows |
| AttachmentJob.BlockWithoutDeleteIff | app/workers/attachment_processor.py:410-451 | A BLOCK report goes without its DELETE iff the webhook call or the write of its outcome fails |
| AttachmentJob.DispositionIff | app/api/detect.py:648-711 | Case A iff the code shown is BLOCK; else Case C iff there are attachments and scanning is enabled; else Case B, both with OK-0000 |
| AuditLog.ListingFacts | app/db/crud.py:229-250 | The listing is strictly descending by (occurred_at, id) and holds exactly the matching rows below the cursor |
| AuditLog.PageFacts | app/db/crud.py:240-250 | A matching row a page omits is older than the whole of a full page |
| AuditLog.PageByFilter | app/db/crud.py:229-250 | A page is the start of the descending list of exactly the rows in the closed time range that equal each filter given and lie below the cursor |
| AuditLog.PageSize | app/db/crud.py:246-248 | The limit is clamped to 1..500; a cursor to the last row comes back iff the page is full |
| AuditLog.WalkSound | app/api/admin_audit.py:184-189 | All pages together are strictly descending, matching rows, though rows are inserted in between |
| AuditLog.WalkCovers | app/api/admin_audit.py:184-189 | A walk that ends has returned every matching row of its first table |
| AuditLog.WalkIsComplete | app/db/crud.py:211-250 | Following next_cursor returns every initially present matching row exactly once, in order |
| AuditLog.WalkEnds | app/api/admin_audit.py:184-189 | On an unchanging table the walk ends |
| AuditLog.UnchangingWalkIsListing | app/db/crud.py:211-250 | and its concatenated pages are the sorted filtered table |
| Checksum.LuhnCheck | app/core/checksum.py:68-81 | True iff at least two digits and the Luhn sum is a multiple of ten |
| Checksum.LuhnCheckDigit | app/core/checksum.py:84-97 | Computes the check digit of the digits in a text |
| Checksum.LuhnByPairs | app/core/checksum.py:73-81 | The sum from the left two digits at a time: the digits of the doubled one, and the other as it is |
| Checksum.CheckDigitCompletes | app/core/checksum.py:68-97 | Appending a digit makes a valid number iff it is the check digit |
| Checksum.CheckDigitCompletesText | app/core/checksum.py:68-97 | The same on texts with separators: appending a digit to a number passes luhn_check iff it is luhn_check_digit of the number |
| Checksum.LuhnCatchesSubstitution | app/core/checksum.py:68-81 | Any single-digit substitution in a valid number of any length is rejected |
| Checksum.LuhnCatchesTransposition | app/core/checksum.py:68-81 | Swapping two different neighbours goes unnoticed iff they are 0 and 9 |
| Checksum.RrnSubstitution | app/core/checksum.py:22-38 | A changed digit goes unnoticed iff it is one of the first twelve and the weighted sums leave 0 and 10, in some order, modulo 11 |
| Checksum.RrnSumByDigits | app/core/checksum.py:22-30 | The weighted sum, digit by digit |
| Checksum.BusinessCatchesSubstitution | app/core/checksum.py:44-62 | Every single-digit substitution in a valid business number is rejected |
| Checksum.BusinessSumByDigits | app/core/checksum.py:44-54 | The weighted sum with its carry, digit by digit |
| Checksum.BusinessValidIff | app/core/checksum.py:47-62 | The tenth digit makes the sum a multiple of ten |
| Checksum.ValidatorIsExact | app/core/recognizers/kr_rrn.py:57-83 | On digits and hyphens the validator accepts iff the number is valid, has gender code 1-4 and a real date of that century |
| Checksum.ValidatorByDigits | app/core/recognizers/kr_rrn.py:64-83 | What is accepted in the thirteen digits of any text: gender code, date in its century, check digit |
| Checksum.MonthsOfTheCentury | app/core/recognizers/kr_rrn.py:71-76 | Which dates of 1900-2099 are real |
| PolicyCache.PolicyCache.constructor | app/core/policy_engine.py:64-69 | Starts empty with a reload pending |
| PolicyCache.PolicyCache.RequestReload | app/core/policy_engine.py:71-72 | Sets the pending flag and nothing else |
| PolicyCache.PolicyCache.Peek | app/core/policy_engine.py:74-80 | The cached rows iff no reload is pending |
| PolicyCache.PolicyCache.Install | app/core/policy_engine.py:83-91 | Installs the rows, clears the flag, counts the rebuild and answers with them |
| PolicyCache.StepKeepsInv | app/core/policy_engine.py:74-91 | Every asyncio step keeps the lock discipline, the rebuild count and the answers |
| PolicyCache.RunKeepsInv | app/core/policy_engine.py:74-91 | The same for every interleaving |
| PolicyCache.ReloadIsDisciplined | app/core/policy_engine.py:64-91 | At most one rebuild in flight, successful rebuilds ≤ 1 + reload requests, every answer is the latest rebuild's list, whatever fails or is cancelled |
| PolicyCache.FlagIsExact | app/core/policy_engine.py:71-91 | In every run the flag is clear iff some load succeeded and no reload was requested after it; a failed or cancelled read uses no request up |
| PolicyCache.RequestTakesEffectIff | app/core/policy_engine.py:71-91 | Nobody is answered after a request with a list read before it, whatever fails, iff no rebuild was in flight as it landed |
| PolicyCache.ClearFlagAnswersAtOnce | app/core/policy_engine.py:74-76 | With the flag clear a getter is answered at once with the list loaded last |
| FeedbackAlerter.CountByCode | app/workers/feedback_alerter.py:189-191 | Exactly the codes present, each with its number of rows |
| FeedbackAlerter.AlerterState.RunOnce | app/workers/feedback_alerter.py:156-220 | Sends iff configured, window not yet alerted, threshold reached and mail works; only then the state row moves; the counts cover exactly the codes of the window |
| FeedbackAlerter.SentEndsIncrease | app/workers/feedback_alerter.py:166-174 | Over all passes at arbitrary clock readings alerted window ends strictly increase |
| FeedbackAlerter.WindowsDisjoint | app/workers/feedback_alerter.py:67-72 | Windows with different ends share no instant |
| FeedbackAlerter.RowsCountedOnce | app/workers/feedback_alerter.py:156-214 | No feedback row is counted in two sent alerts |
| FeedbackAlerter.CountedInNextHour | app/workers/feedback_alerter.py:67-72 | A pass counts a row iff it runs in the clock hour after the one the row was created in |
| Base64.RoundTrip | app/security/encryption.py:128-140 | Decoding inverts encoding for every byte string |
| Base64.StandardAlphabet | app/security/encryption.py:128-128 | The alphabet of RFC 4648 table 1, by code point |
| Base64.TestVectors | app/security/encryption.py:128-128 | Three test vectors of section 10 of RFC 4648 |
| Base64.DecodeIsStrict | app/security/encryption.py:140-142 | Only whole groups of four of the alphabet, with padding at the very end, decode |
| Envelope.BuildOldCiphers | app/security/encryption.py:69-90 | The table of retired keys by id modulo 256, later entries winning |
| Envelope.LayoutParses | app/security/encryption.py:127-151 | Parsing the layout gives back version, key id, nonce and ciphertext |
| Envelope.DecryptsWithChosenKey | app/security/encryption.py:93-158 | Decryption under another configuration is opening with the key that configuration picks for the envelope's id |
| Envelope.KeyChoice | app/security/encryption.py:93-108 | The current key for its own id and for every unlisted id, else the last retired key with that id modulo 256 |
| Envelope.DecryptOutcome | app/security/encryption.py:131-158 | Which error arises when, and otherwise what the chosen key opens |
| Envelope.RotationKeepsEnvelopesReadable | app/security/encryption.py:69-158 | After any rotations that keep retired keys under ids distinct modulo 256 every envelope ever produced decrypts to its plaintext |

## Left out

- The `remaining` value of the rate limiter, which Redis truncates on return, and `check_ip`, which is one more `consume`.
- Float rounding: scores, tokens, rates and times are reals; a zero rate, on which the script fails, is excluded; one clock drives both `now` and Redis's expiry.
- VerifyRequest: takes the timestamp check, key lookup and nonce claim as one step of one shared clock; integer parsing, HMAC-SHA256 (RFC 2104), SHA-256 and upper-casing of the method are abstract, and the client address and IP allowlist are not part of this model.
- The analyzer, its recognizers, regular expressions and context boosting; hits are arbitrary inputs.
- PoC mode, the shadow analyzer, response messages and policy message templates.
- AddPolicy: an action or mode outside the five and three listed values is unrepresentable rather than rejected; changing a policy's mode is not modelled.
- Reserve: the eviction and the stamp of a new entry use one clock reading, where the code takes two; thread scheduling inside the lock is not modelled.
- HandlersAreIdempotent: assumes that a handler finishes or leaves within the TTL; OverstayingLosesTheId shows exactly what happens otherwise.
- AtomicCallsBound: takes both steps of an atomic call at one reading of the clock, where the code takes two; calls whose readings lie on both sides of the start of a window are covered by WaitingCallsBound.
- CanonicalIsInjective: takes header values, method and digest to be free of line breaks, as HTTP and hexadecimal guarantee; the path is arbitrary.
- OneJobPerRequest: counts jobs within the TTL of the earlier job; a request that comes back after the TTL is new by design.
- Fetching, ClamAV, text extraction, OCR and the HTTP retry loops of webhook and DELETE: only their outcomes are inputs.
- The job row's error text, completion times and the `webhook_attempts` constant.
- The text form of the pagination cursor (base64 of JSON), the default time range taken from the clock, and the retention clean-up that deletes audit rows.
- Digits outside 0-9 and white space beyond blank, tab and line breaks; the business number is taken as its digits.
- AES-256-GCM is an abstract pair with opening inverting sealing; UTF-8 coding, and errors in the hex or JSON settings, are not modelled.
- The alerter's mail text, its scrubbing of reasons and the order of codes in the mail.
- The analyzer cache follows the policy cache's protocol and would add nothing.
- Log filtering, dashboards, metrics, CLI, migrations and configuration.
