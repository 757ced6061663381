# Branivo verification

A Dafny model of the parts of Branivo, an insurance-broker platform, in which
correctness depends on interleaving, on state kept over whole runs, or on exact
arithmetic. Each part has the form the program gives it: an object whose methods
update fields or a table is a class, a loop is a loop, and an expression is a
function. What the program leaves to the scheduler, to the network, to Stripe or to
other requests is a choice the proofs do not depend on.

`dafny verify dfyconfig.toml` checks the whole project.

| part | files | what is proved |
|---|---|---|
| Batch PDF export | `FleetProtocol`, `FleetSafety`, `FleetLateWrite`, `FleetFaults`, `FleetService`, `FleetRuns` | Concurrent jobs count, re-read and claim; one of them assembles the archive. One claim, only when all have counted, none lost, right status and contents; exactly when a late write or a failing read breaks that |
| Audit log | `AuditHash`, `AuditEntry`, `AuditDecoding`, `AuditChain`, `AuditQuery`, `AuditProtocol`, `AuditService` | Canonical JSON, exactly when the hashed text is uniquely decodable, tamper evidence, and which genuine logs `verifyChain` accepts |
| Payment to policy | `PaymentProtocol`, `PaymentMoney`, `PaymentActivation`, `PaymentLoss`, `PaymentStatus`, `PaymentCommissions`, `PaymentService`, `PaymentCounterexamples` | One fee everywhere, one policy and one PDF job per intent, exactly when a job is lost or doubled, and what the status of a payment and of a commission is worth, over every interleaving of calls and webhook deliveries |
| Worker pools | `WorkerPool`, `Enrichment`, `EnrichmentCache`, `EnrichmentExamples`, `EnrichmentService` | Each task once, results in place; exactly when a shared cache is invisible |
| Sliding windows | `RateLimiter`, `CircuitBreaker` | The pruned state agrees with the complete history |
| Scraper output | `LineSplitter`, `ScraperRun`, `Utf8Chunks` | Chunk boundaries do not matter, and exactly when they do |
| Certificates | `Vin`, `MrzText`, `MrzParser` | What the check digit detects, what OCR errors are repaired, round trip of the machine-readable zone |
| Login and tokens | `Lockout`, `AuthService`, `RefreshProtocol`, `TokenService` | A tight bound on password tries, exactly how often a refresh token is honoured, and a cursor loop that removes one user's tokens |
| Invoices | `Billing`, `BillingService` | Days, rounding, disjoint periods, conservation of commissions, one invoice per period |

`Selections` says what it means to keep some elements of a sequence, and `Wrappers`
holds the shared result types.

A state machine such as `FleetProtocol.Next` or `PaymentProtocol.Next` takes one
statement of one handler per step, and a run is any sequence of steps. The class of
the same part performs the statements on real fields and is proved to be such a run,
so the results about runs hold of it.

## Where the code does not do what is expected of it

Each of these is a theorem with a concrete input or a condition that is met exactly
when the expectation is.

- Batch export: `createBatchExport` writes PROCESSING after queueing the jobs. When
  that write follows a claim, the assembly can be claimed twice, exactly while the
  counters are full and another job has still to try (`SecondClaimExactlyWhen`);
  when it follows the publication, the finished export stays PROCESSING
  (`HiddenExactlyWhen`). Both can happen to every batch of two, or one, policies
  without any failure (`ClaimedTwiceExactlyWhen`, `EndsHiddenExactlyWhen`). A job
  whose read or claim fails after its increment counts again, and exactly then the
  assembly is claimed before all have counted once (`ClaimedEarlyExactlyWhen`). An
  empty batch is never assembled (`NoLostAssembly`), nor is one with a job that could
  not be queued (`MissingJobBlocks`).
- Audit log: a log is accepted exactly when its keys increase in commit order
  (`AcceptedIffInOrder`); two entries with one time stamp can make the service
  reject its own chain. The hashed text determines an entry exactly when none of its
  id and action fields holds a vertical bar; any bar there can be moved to the
  neighbouring field without changing the hash (`DeterminedExactlyWhen`,
  `AnotherReading`). A metadata member named `__proto__` is not hashed
  (`ProtoMemberIsNotCovered`).
- Payments: a crash between the insertion of a policy and its PDF job loses the job
  for good, since a retry finds the policy active (`LostForever`); so does a crash
  after the activation of a policy that was there. It can happen to every policy that
  was not active before (`LostExactlyWhen`), and afterwards only a handler that is
  already past the look-up can still queue the job (`QueuedLaterExactlyWhen`). Two
  events queue two jobs exactly if an inactive policy was there before
  (`NeverTwoJobsExactlyWhen`). A failed event that comes after a succeeded one marks
  the payment failed and leaves the policy active, and no later delivery corrects it
  (`FailedAfterSucceeded`, `MendedExactlyWhen`).
- `runConcurrent` with a concurrency below one runs nothing and reports success.
- Enrichment: the cache is keyed by host although whole addresses are fetched. A row
  may be given the page of an earlier row of its host as soon as six rows before it
  have a host that was not cached, and not sooner (`CacheIsInvisible`,
  `SharedHostIsSeen`, `SitelessRowsDoNotWait`).
- Scraper output: the total depends on the interleaving of the two streams unless
  one of them settles it (`TotalDeterminedExactlyWhen`); of several totals rewritten
  on one line the first counts (`FirstTotalOnTheLine`), which is how the scraper
  prints its progress (scripts/autodata24-scraper.ts:535); and a chunk that starts
  inside a multi-byte character damages the line (`DecodedExactlyWhen`).
- Rate limiter: the advertised waiting time is an instant too short when all ten
  admissions share the instant of the refusal (`RetryAfter`).
- Certificates: a name line shorter than twenty characters is dropped (`RoundTrip`),
  a document number that starts like a plate is taken for it
  (`DocumentTakenForPlate`), a number alone is as confident a reading as a plate and a
  name without one (`ConfidenceTells`), and the check digit cannot see an exchange of
  two digits in the eighth and ninth positions, nor of X and 4 in the ninth and tenth;
  for each other weight one digit may change places with X (`CheckDigitExchange`,
  `AdjacentExchange`, `XExchangeExample`).
- Login: the bound on tries grows with the number of logins under way at once
  (`TriesAreBounded`, `BoundIsReached`); a refresh token is honoured as often as it is
  read before its first removal (`AtMostOneServedExactlyWhen`), so twice when two
  requests overlap (`SpentTwiceWhenOverlapping`).
- Invoices: a period ends at the midnight that begins the month's last day, so
  policies made later that day are billed in no period (`CountedExactlyWhen`); a
  tenant activated after the period is charged nothing or less (`DaysActiveInRange`).

## Model

| member | source | states |
|---|---|---|
| FleetSafety.AtMostOneClaim | branivo-api/src/modules/fleet/fleet-pdf-export.repository.ts:68-79 | In every interleaving, with any failures and redeliveries, the assembly is claimed at most once; only the late PROCESSING write landing after a claim can make it two, never three |
| FleetSafety.ClaimsOnlyWhenFull | branivo-api/src/modules/fleet/fleet-pdf-export.service.ts:135-175 | Without failing reads a claim happens only when every job of the batch has contributed exactly one completed or failed increment; until a second claim the counters exceed the batch by at most the one increment of a claimer whose assembly threw |
| FleetSafety.NoLostAssembly | branivo-api/src/modules/fleet/fleet-pdf-export.service.ts:164-175 | Once all handlers have finished, the assembly has been claimed exactly when the batch is not empty and every job has contributed; no wake-up is lost between increment, read and claim |
| FleetSafety.AtMostThreeDeliveries | branivo-api/src/modules/fleet/fleet-pdf-export.service.ts:77-80 | A handler runs at most three times, and one that rejected is delivered again unless it has |
| FleetSafety.MissingJobBlocks | branivo-api/src/modules/fleet/fleet-pdf-export.service.ts:68-84 | Without failing reads a job whose queue insertion failed holds the batch up for good: nothing is claimed or archived, whatever the other jobs do |
| FleetSafety.Outcome | branivo-api/src/modules/fleet/fleet-pdf-export.service.ts:177-225 | After a successful assembly the archive holds a policy exactly when its job counted itself completed and its PDF is stored, none twice and in batch order, whether or not the late write came after it; the status is FAILED iff nothing completed, COMPLETED iff nothing failed and PARTIAL otherwise, unless the late write replaced it |
| FleetSafety.NothingDropped | branivo-api/src/modules/fleet/fleet-pdf-export.service.ts:196-207 | The archive is all completed policies exactly when each of them has its PDF stored |
| FleetSafety.ZipSelects | branivo-api/src/modules/fleet/fleet-pdf-export.service.ts:191-207 | The files are those of the batch that did not fail and have a PDF stored: each position once, in order, one missing PDF dropping that policy alone |
| FleetSafety.CompletedAreTheRest | branivo-api/src/modules/fleet/fleet-pdf-export.service.ts:191-194 | policyIds minus failedPolicyIds are exactly the policies whose jobs counted as completed |
| FleetSafety.ContributionsStay | branivo-api/src/modules/fleet/fleet-pdf-export.repository.ts:36-57 | No statement of any run takes back an increment made before the claim |
| FleetSafety.Reachable | branivo-api/src/modules/fleet/fleet-pdf-export.service.ts:135-232 | Every run without failing reads keeps the counters equal to the jobs' own tallies and, up to a second claim, the row in step with the handlers, the late write before or after the claim |
| FleetSafety.CountersAfterClaim | branivo-api/src/modules/fleet/fleet-pdf-export.service.ts:150-175 | Once claimed, the counters stay exactly full until the claimer itself counts again, which is why it can never claim twice |
| FleetLateWrite.SecondClaimExactlyWhen | branivo-api/src/modules/fleet/fleet-pdf-export.service.ts:86-89 | After the first claim, in any run without failing reads, a second one can still come if and only if the late PROCESSING write has hit the claimed row or is still to come, the counters are exactly full, and a job other than the claimer is at its read or its conditional update |
| FleetLateWrite.ClaimedTwiceExactlyWhen | branivo-api/src/modules/fleet/fleet-pdf-export.repository.ts:68-79 | Some run without any failure claims the assembly twice if and only if the batch has two policies or more |
| FleetLateWrite.LateWriteAllowsSecondClaim | branivo-api/src/modules/fleet/fleet-pdf-export.service.ts:86-89 | That run, for every such batch |
| FleetLateWrite.HiddenExactlyWhen | branivo-api/src/modules/fleet/fleet-pdf-export.service.ts:86-89 | In every run, whatever fails: an assembled export is PROCESSING, its archive out of reach, if and only if the late write came after the last publication and there was one claim |
| FleetLateWrite.EndsHiddenExactlyWhen | branivo-api/src/modules/fleet/fleet-pdf-export.service.ts:86-133 | Some run without any failure ends with all handlers done, the archive ready and the export PROCESSING for good, if and only if the batch is not empty |
| FleetLateWrite.LateWriteHidesTheArchive | branivo-api/src/modules/fleet/fleet-pdf-export.service.ts:86-89 | That run, for every such batch |
| FleetFaults.ClaimedEarlyExactlyWhen | branivo-api/src/modules/fleet/fleet-pdf-export.service.ts:143-175 | In every run, whatever fails: at the first claim every job has contributed exactly one increment if and only if no job incremented again after one of its own reads or claims failed |
| FleetFaults.EarlyClaimExactlyWhen | branivo-api/src/modules/fleet/fleet-pdf-export.service.ts:143-175 | Some run claims before every policy has been counted once if and only if the batch has two policies or more |
| FleetFaults.ReadFaultClaimsEarly | branivo-api/src/modules/fleet/fleet-pdf-export.service.ts:143-147 | That run, for every such batch: one failing read, and the last job has not even started |
| FleetService.FleetPdfExportRepository.Save | branivo-api/src/modules/fleet/fleet-pdf-export.service.ts:55-66 | The saved row is PENDING with zero counters and no archive |
| FleetService.FleetPdfExportRepository.IncrementCompleted | branivo-api/src/modules/fleet/fleet-pdf-export.repository.ts:36-43 | The statement changes the completed counter alone |
| FleetService.FleetPdfExportRepository.IncrementFailed | branivo-api/src/modules/fleet/fleet-pdf-export.repository.ts:45-57 | The statement changes the failed counter and appends the failed policy in one go |
| FleetService.FleetPdfExportRepository.TryMarkForAssembly | branivo-api/src/modules/fleet/fleet-pdf-export.repository.ts:68-79 | The conditional update succeeds exactly on an open row whose counters add up, and only then changes the status |
| FleetService.FleetPdfExportRepository.UpdateStatus | branivo-api/src/modules/fleet/fleet-pdf-export.repository.ts:81-83 | The unconditional status write |
| FleetService.FleetPdfExportRepository.UpdateZipReady | branivo-api/src/modules/fleet/fleet-pdf-export.repository.ts:59-66 | Archive, its key, its expiry date and the final status are written together |
| FleetService.FleetPdfExportService.CreateBatchExport | branivo-api/src/modules/fleet/fleet-pdf-export.service.ts:42-84 | A new batch is the initial state of the protocol |
| FleetService.FleetPdfExportService.MarkExportProcessing | branivo-api/src/modules/fleet/fleet-pdf-export.service.ts:86-89 | The late write is the protocol's own step, so the results about runs cover it |
| FleetService.FleetPdfExportService.ProcessIndividualPdfJob | branivo-api/src/modules/fleet/fleet-pdf-export.service.ts:135-148 | A handler run from start to end, whichever of its statements throw, is a run of the protocol that moves only this job; which increments are made, what is published, and whether the job is rejected follow from the row and from the statements that work |
| FleetService.FleetPdfExportService.MarkPolicyPdfComplete | branivo-api/src/modules/fleet/fleet-pdf-export.service.ts:150-153 | Nothing changes if the increment throws; otherwise the row is the counted one after an attempt to assemble. Any exception leads to the catch block |
| FleetService.FleetPdfExportService.MarkPolicyPdfFailed | branivo-api/src/modules/fleet/fleet-pdf-export.service.ts:155-162 | Likewise for a failed job; an exception here rejects the job |
| FleetService.FleetPdfExportService.TryAssemble | branivo-api/src/modules/fleet/fleet-pdf-export.service.ts:164-175 | The attempt assembles exactly when read and conditional update work and the update finds an open, full row; it throws exactly when one of the two, or then the assembly, does |
| FleetService.FleetPdfExportService.ClaimAndAssemble | branivo-api/src/modules/fleet/fleet-pdf-export.service.ts:168-174 | After the read: the conditional update decides whether this job assembles |
| FleetService.FleetPdfExportService.Claim | branivo-api/src/modules/fleet/fleet-pdf-export.service.ts:168-171 | The conditional update moves the job to the assembly exactly when it changed the row |
| FleetService.FleetPdfExportService.AssembleBatchZip | branivo-api/src/modules/fleet/fleet-pdf-export.service.ts:177-232 | The archive is published from the re-read row exactly when loading, building and writing work, and holds the policies that did not fail and have a PDF stored, in order; the call throws unless the notification works too |
| FleetService.FilterCompleted | branivo-api/src/modules/fleet/fleet-pdf-export.service.ts:191-194 | The filter loop keeps the ids that did not fail, each position once, in order |
| FleetService.FilterStored | branivo-api/src/modules/fleet/fleet-pdf-export.service.ts:196-207 | The buffers kept are those of all policies with a stored PDF, each position once, in order |
| FleetService.FleetPdfExportRepository.FindByIdRaw | branivo-api/src/modules/fleet/fleet-pdf-export.repository.ts:32-34 | The read returns the whole row and changes nothing |
| FleetService.FleetPdfExportService.TryBlock | branivo-api/src/modules/fleet/fleet-pdf-export.service.ts:137-143 | The catch block is entered exactly when the PDF was not generated, the increment threw or the attempt to assemble did |
| FleetService.FleetPdfExportService.BuildAndNotify | branivo-api/src/modules/fleet/fleet-pdf-export.service.ts:181-232 | A failure while building leaves the row as it is, a failing notification comes after the publication; either leads to the catch block |
| FleetService.FleetPdfExportService.PublishZip | branivo-api/src/modules/fleet/fleet-pdf-export.service.ts:181-225 | The final status and archive are computed from the snapshot, not from the current row; an archive expires a day later |
| CanonicalJson.CanonicalText | branivo-api/src/common/audit/audit-hash.util.ts:27-42 | Two metadata values serialise alike exactly when they are the same tree up to member order at every depth, null and missing metadata read as the empty object |
| CanonicalJson.PrintPrefix | branivo-api/src/common/audit/audit-hash.util.ts:30-41 | The printed form of a JSON value can be read off the front of any text: neither of two different values' texts with anything appended equals the other's |
| CanonicalJson.SortedKeeps | branivo-api/src/common/audit/audit-hash.util.ts:30-41 | Sorting the members changes nothing in the tree an object stands for, and the result is in canonical order at every depth |
| CanonicalJson.CanonicalUnique | branivo-api/src/common/audit/audit-hash.util.ts:20-26 | A tree has only one canonically ordered form |
| CanonicalJson.KeysAreEnumerated | branivo-api/src/common/audit/audit-hash.util.ts:31-38 | The members of the sorted copy come with array indices first, in numeric order, and the other keys after them, in the order of their characters |
| CanonicalJson.ArrayIndexIs | branivo-api/src/common/audit/audit-hash.util.ts:31-38 | An array index is a numeral without leading zeros up to 2^32 - 2 |
| CanonicalJson.MetadataIs | branivo-api/src/common/audit/audit-hash.util.ts:27-30 | Metadata that is not null is serialised as it is given, missing or null metadata as the empty object |
| CanonicalJson.EscapesAre | branivo-api/src/common/audit/audit-hash.util.ts:30 | Quotation mark, backslash and the five control characters that have a short escape are written with it, other control characters with six characters, any other as itself; each can be read back |
| CanonicalJson.ProtoMemberIsNotCovered | branivo-api/src/common/audit/audit-hash.util.ts:33-38 | A member named __proto__ is dropped by the sorting, so two different objects hash alike |
| AuditEntry.IsoInjective | branivo-api/src/common/audit/audit-hash.util.ts:65 | The 24-character date text determines the instant |
| AuditEntry.IsoReads | branivo-api/src/common/audit/audit-hash.util.ts:65 | Year, month, day, hour, minute, second and millisecond are read back in decimal from their places in the date text |
| AuditEntry.BeforeIsEarlier | branivo-api/src/common/audit/audit.service.ts:93 | The order of instants is that of their components, the year first and the millisecond last |
| AuditEntry.FieldsJoined | branivo-api/src/common/audit/audit-hash.util.ts:58-67 | The hashed text is the eight fields in their order, absent ones empty, joined by bars |
| AuditEntry.InputDeterminesContent | branivo-api/src/common/audit/audit-hash.util.ts:58-67 | The hashed text determines contents and previous hash, and is determined by them, when the five id and action fields hold no vertical bar; the metadata may hold any number of them |
| AuditEntry.PipeMovesBetweenFields | branivo-api/src/common/audit/audit-hash.util.ts:58-67 | Without that condition two different entries give one text |
| AuditDecoding.DeterminedExactlyWhen | branivo-api/src/common/audit/audit-hash.util.ts:58-67 | Among all entries, with or without bars, the hashed text determines an entry and its previous hash if and only if its own five id and action fields hold no vertical bar |
| AuditDecoding.OnlyPipeFree | branivo-api/src/common/audit/audit-hash.util.ts:58-67 | An entry with a bar in a field never has the text of one without |
| AuditDecoding.AnotherReading | branivo-api/src/common/audit/audit-hash.util.ts:58-67 | Whichever of the five fields holds a bar, moving it over that boundary gives another entry with the same text |
| AuditDecoding.ScanPrint | branivo-api/src/common/audit/audit-hash.util.ts:27-42 | Canonical JSON leaves the reader outside strings, with no bar or backslash outside one, which is what separates the metadata from the fields |
| AuditChain.SortSorts | branivo-api/src/common/audit/audit.service.ts:93 | The rows in (created_at, id) order are the same rows, each once |
| AuditQuery.QueryReads | branivo-api/src/common/audit/audit.service.ts:86-96 | The query returns the rows of the tenant, each as often as the table holds it and nothing else, if they are at most 50000, and 50000 of them otherwise |
| AuditQuery.QueryReadsTheFirst | branivo-api/src/common/audit/audit.service.ts:86-96 | They come in the order of their keys, and every row of the tenant that LIMIT leaves out comes after every row that is read |
| AuditQuery.QueryCounts | branivo-api/src/common/audit/audit.service.ts:98-101 | Split by the presence of a hash, they are as many as the tenant's rows with and without one in the table |
| AuditChain.PrefixAccepted | branivo-api/src/common/audit/audit.service.ts:94-126 | Cutting an accepted chain by LIMIT leaves it accepted |
| AuditChain.IncreasingAccepted | branivo-api/src/common/audit/audit.service.ts:27-61 | If keys increase in commit order, the chain that log builds is accepted, whatever the hash function does |
| AuditChain.SamePast | branivo-api/src/common/audit/audit.service.ts:105-126 | Two accepted chains that meet in one hash agree from there back to the genesis |
| AuditChain.AcceptedIsCommitOrder | branivo-api/src/common/audit/audit.service.ts:105-126 | An accepted order of genuinely chained rows is the order in which they were committed |
| AuditChain.AcceptedIffInOrder | branivo-api/src/common/audit/audit.service.ts:26-36 | Genuine rows are accepted exactly when their (created_at, id) keys increased in commit order, so equal or decreasing time stamps make the service reject its own chain |
| AuditTamper.InputEndsInLink | branivo-api/src/common/audit/audit-hash.util.ts:58-67 | The hashed text ends in the previous hash |
| AuditTamper.TamperEvidence | branivo-api/src/common/audit/audit.service.ts:98-126 | Two accepted row lists ending in the same entry hash, one of them free of bars, have the same length and the same hashed contents and hashes at every position; the other list may hold anything |
| AuditTamper.GenuineLogAccepted | branivo-api/src/common/audit/audit.service.ts:26-126 | For the text that is really hashed, a genuine log is accepted exactly when its keys are in commit order |
| AuditProtocol.Reachable | branivo-api/src/common/audit/audit.service.ts:16-62 | In every interleaving of lock, read, insert, commit and roll-back across tenants, each committed row is chained to its tenant's latest row |
| AuditProtocol.LogIsVerifiable | branivo-api/src/common/audit/audit.service.ts:16-126 | Hence verifyChain accepts every tenant's rows, cut by LIMIT or not and with old unchained rows between, if the keys increase; and if nothing is cut, exactly then |
| AuditService.AuditLog.constructor | branivo-api/src/common/audit/audit.service.ts:9-14 | A table of rows without hashes is where every run starts |
| AuditService.AuditLog.Log | branivo-api/src/common/audit/audit.service.ts:16-72 | A call is a run of the protocol; it appends one row, holding what the caller gave and chained to the tenant's latest, or nothing when any statement fails, and never reports an error |
| AuditService.AuditLog.ReadAndWrite | branivo-api/src/common/audit/audit.service.ts:26-61 | The read of the last hash and the insert under the lock |
| AuditService.AuditLog.Write | branivo-api/src/common/audit/audit.service.ts:37-61 | Hash, insert and commit |
| AuditService.AuditLog.VerifyChain | branivo-api/src/common/audit/audit.service.ts:74-135 | The loop is valid exactly for accepted chains, counts the tenant's rows with and without a hash in the table (while LIMIT cuts nothing off), and on rejection names the time of the first violating row |
| PaymentMoney.FeeIsFair | branivo-api/src/modules/payments/payments.service.ts:65-66 | For rates between 0 and 1 the rounded fee lies between nothing and the amount and within half a cent of the exact fee |
| PaymentMoney.MoneyHolds | branivo-api/src/modules/payments/payments.service.ts:38-145 | Every run, with retries, lost answers, crashes, rate changes and forgotten idempotency keys, keeps Stripe's intents, payments, commissions and policies agreeing on the money |
| PaymentMoney.MoneyConserved | branivo-api/src/modules/payments/stripe-webhook.service.ts:223-258 | At most one payment per tenant and quote; the same fee is the intent's, the payment's, the pending commission's and the policy snapshot's |
| PaymentActivation.AtMostOnce | branivo-api/src/modules/payments/stripe-webhook.service.ts:161-399 | In every interleaving of deliveries, duplicates, retries and crashes, and whatever other policies there were, the policy of an intent that had none is activated at most once and its PDF queued at most once, never first, and only after a succeeded event |
| PaymentActivation.QueuedExactlyWhen | branivo-api/src/modules/payments/stripe-webhook.service.ts:241-301 | The PDF job exists exactly when the handler that inserted the policy got past queueing |
| PaymentActivation.ExactlyOnce | branivo-api/src/modules/payments/stripe-webhook.service.ts:161-350 | Once the handler that inserted a policy has finished, there is one policy, one activation and one job, whatever the other deliveries of the intent do, throwing on the unique index or crashing included |
| PaymentLoss.ExactlyOnceWhenNothingFails | branivo-api/src/modules/payments/stripe-webhook.service.ts:161-350 | When nothing fails but for the unique indexes and all handlers have ended, every intent of which a succeeded delivery found its payment has one active policy, one activation and one job, however many deliveries raced and lost; for intents without an earlier policy |
| PaymentLoss.OnlyLosersStop | branivo-api/src/modules/payments/stripe-webhook.service.ts:241-257 | In such runs a handler stops only where another has inserted the policy first |
| PaymentActivation.OneJobPerEvent | branivo-api/src/modules/payments/stripe-webhook.service.ts:264-301 | Even for a policy that existed before, activations and jobs number at most the distinct succeeded events, so two interleaved handlers of one event queue one job |
| PaymentActivation.Reachable | branivo-api/src/modules/payments/stripe-webhook.service.ts:161-399 | Every run keeps each policy in step with the handler that created it |
| PaymentActivation.BrokenStep | branivo-api/src/modules/payments/stripe-webhook.service.ts:161-399 | A statement that breaks changes no table and stops the handler, except that a commission is only tried to be put aside, confirmed or failed |
| PaymentActivation.OnlyMissingPayments | branivo-api/src/modules/payments/stripe-webhook.service.ts:176-181 | A handler ends as one that found no payment only where it looked for one in vain |
| PaymentActivation.InsertsExactlyWhen | branivo-api/src/modules/payments/stripe-webhook.service.ts:240-258 | The inserting step is the one that makes the policy appear |
| PaymentActivation.ActivePolicyIsLeftAlone | branivo-api/src/modules/payments/stripe-webhook.service.ts:184-191 | A policy that was active before is never touched, whatever is delivered |
| PaymentCounterexamples.NeverTwoJobsExactlyWhen | branivo-api/src/modules/payments/stripe-webhook.service.ts:184-301 | For any policies that were there before: no run queues the PDF of an intent twice if and only if its policy was not there or was active |
| PaymentCounterexamples.TwoEventsTwoJobs | branivo-api/src/modules/payments/stripe-webhook.service.ts:184-301 | Otherwise two different succeeded events of the intent, interleaved, activate the policy twice and queue its PDF twice |
| PaymentLoss.QueuedLaterExactlyWhen | branivo-api/src/modules/payments/stripe-webhook.service.ts:184-301 | Once a policy is active, some continuation queues its PDF once more if and only if one of these is running: a handler that found the policy inactive or is at the event insertion, its event unrecorded, or one at the queueing statement; no later delivery does |
| PaymentLoss.LostForever | branivo-api/src/modules/payments/stripe-webhook.service.ts:184-191 | So the job of an active policy is lost in all continuations if and only if it is not queued and no such handler is running |
| PaymentLoss.LostByItsCreator | branivo-api/src/modules/payments/stripe-webhook.service.ts:241-301 | For a policy that the webhook inserted: if and only if the handler that inserted it stopped at the event insertion or at the queueing |
| PaymentLoss.LostExactlyWhen | branivo-api/src/modules/payments/stripe-webhook.service.ts:240-301 | Some run makes a policy active and loses its PDF job for good if and only if the policy was not active before: missing or inactive |
| PaymentLoss.CrashAfterPolicy | branivo-api/src/modules/payments/stripe-webhook.service.ts:240-301 | That run in both cases: pay, deliver, insert the policy or activate the one that was there, crash |
| PaymentStatus.PaidExactlyWhen | branivo-api/src/modules/payments/stripe-webhook.service.ts:193-380 | In every run a payment is recorded as succeeded, or failed, exactly when the last handler to mark it came from a succeeded, or failed, event; a policy the webhook made is active and its payment marked, but not always as succeeded |
| PaymentCommissions.SettledExactlyWhen | branivo-api/src/modules/payments/stripe-webhook.service.ts:334-394 | In every run a commission that is there has failed exactly when the last settlement that worked since it was put aside was that of a failed event, is confirmed exactly when it was that of a succeeded one, and is pending exactly when there was none |
| PaymentCommissions.FeeStays | branivo-api/src/modules/payments/stripe-webhook.service.ts:334-394 | No step takes a commission away or changes its fee |
| PaymentStatus.FailedAfterSucceeded | branivo-api/src/modules/payments/stripe-webhook.service.ts:352-380 | Every intent can end with an active policy and a failed payment that nothing corrects, when the failed event comes last |
| PaymentStatus.MendedExactlyWhen | branivo-api/src/modules/payments/stripe-webhook.service.ts:184-194 | From such a state some continuation records the payment as succeeded again if and only if a running handler of a succeeded event is already past the look-up of the policy; no new delivery does |
| PaymentService.Pipeline.CreateIntent | branivo-api/src/modules/payments/payments.service.ts:34-145 | A call is a run of the protocol; with a payment recorded for the key it returns that one and changes nothing, as it changes nothing for a quote that cannot be sold; otherwise it leaves exactly the intent, payment and pending commission that the statements that worked make, and answers with the intent iff the payment is saved |
| PaymentService.Pipeline.BuyQuote | branivo-api/src/modules/payments/payments.service.ts:52-66 | A quote that cannot be sold is refused with nothing changed; any other is bought |
| PaymentService.Pipeline.StripeCreatePaymentIntent | branivo-api/src/modules/payments/payments.service.ts:81-93 | A repeated key gives the first intent back and creates none |
| PaymentService.Pipeline.Save | branivo-api/src/modules/payments/payments.service.ts:95-145 | The payment is saved iff the insert works and neither its intent nor its key has one; a failing pending commission does not fail the call |
| PaymentService.Pipeline.HandlePaymentSucceeded | branivo-api/src/modules/payments/stripe-webhook.service.ts:161-350 | A delivery processed to its end is a run of the protocol; an event that was recorded, without a payment, or with an active policy changes nothing; any other marks the payment, makes the policy active, adds one activation and one job and confirms the commission, up to the first statement that throws |
| PaymentService.HandledCounts | branivo-api/src/modules/payments/stripe-webhook.service.ts:193-345 | With all statements working: an active policy, one activation and one job more for this intent and none for others, a confirmed commission; otherwise the first failing statement decides what is missing |
| PaymentService.Pipeline.CheckAndActivate | branivo-api/src/modules/payments/stripe-webhook.service.ts:166-191 | A recorded event changes nothing |
| PaymentService.Pipeline.ActivatePaid | branivo-api/src/modules/payments/stripe-webhook.service.ts:184-191 | An active policy is left alone |
| PaymentService.Pipeline.HandlePaymentFailed | branivo-api/src/modules/payments/stripe-webhook.service.ts:352-399 | Likewise for a failed payment: payment and then pending commission become failed, the commission keeping its fee, unless the payment is missing or failed already; policies, events, jobs and every other payment and commission stay |
| PaymentService.Pipeline.FindAndFail | branivo-api/src/modules/payments/stripe-webhook.service.ts:361-380 | Without a payment, or with one that has failed already, nothing is changed |
| PaymentService.Pipeline.PayAndSave | branivo-api/src/modules/payments/payments.service.ts:58-145 | Stripe's side is kept even when the answer is lost; the payment is recorded with amount, fee and rate of this call exactly when Stripe answers with an intent that is new here and the save works; the commission only beside it |
| PaymentService.Pipeline.SavePendingCommission | branivo-api/src/modules/payments/payments.service.ts:129-145 | The pending commission is saved iff its insert works and there was none; nothing else changes |
| PaymentService.Pipeline.FindAndActivate | branivo-api/src/modules/payments/stripe-webhook.service.ts:177-191 | Without a payment or with an active policy nothing is changed; otherwise the tables are those after the statements that work |
| PaymentService.Pipeline.MarkPaid | branivo-api/src/modules/payments/stripe-webhook.service.ts:193-194 | The payment is marked before the policy exists, and nothing is changed if that statement throws |
| PaymentService.Pipeline.RecordMethod | branivo-api/src/modules/payments/stripe-webhook.service.ts:196-221 | Recording the method may fail, and then nothing that follows is done |
| PaymentService.Pipeline.Activate | branivo-api/src/modules/payments/stripe-webhook.service.ts:240-261 | A policy with the amounts of the payment is inserted, or the existing one activated with its amounts kept |
| PaymentService.Pipeline.Announce | branivo-api/src/modules/payments/stripe-webhook.service.ts:263-285 | The activation event is inserted once per Stripe event; for a recorded event nothing is changed and nothing follows |
| PaymentService.Pipeline.Queue | branivo-api/src/modules/payments/stripe-webhook.service.ts:287-301 | The PDF job is added once, and only then logged and the commission confirmed |
| PaymentService.Pipeline.LogAndConfirm | branivo-api/src/modules/payments/stripe-webhook.service.ts:303-345 | The queued job is logged, and only then the commission confirmed |
| PaymentService.Pipeline.ConfirmCommission | branivo-api/src/modules/payments/stripe-webhook.service.ts:334-345 | The pending commission becomes succeeded if the statement works; a failure does not fail the delivery |
| PaymentService.Pipeline.MarkPaymentFailed | branivo-api/src/modules/payments/stripe-webhook.service.ts:374-380 | The payment becomes failed iff the statement works, and only then the pending commission, which keeps its fee; nothing else changes |
| PaymentService.Pipeline.FailCommission | branivo-api/src/modules/payments/stripe-webhook.service.ts:382-394 | The pending commission becomes failed iff the statement works, and keeps its fee; a failure does not fail the delivery |
| WorkerPool.RunConcurrent | scripts/autodata24-scraper.ts:138-156 | For every order in which workers resume: tasks start in order, each once; the most in flight is min(concurrency, n); the run ends; every result is at its own place, or the call rejects if a task fails; with concurrency below one nothing runs and the result is empty |
| WorkerPool.RunAll | scripts/autodata24-scraper.ts:143-154 | Without a failure and with a worker, all tasks are started before the pool ends |
| WorkerPool.ResumeAny | scripts/autodata24-scraper.ts:143-148 | Whichever suspended worker resumes, every task below the index stays stored, in flight on one worker, or failed |
| WorkerPool.StartWorkers | scripts/autodata24-scraper.ts:149-152 | The workers take the first tasks, one each |
| EnrichmentCache.CacheIsInvisible | branivo-api/src/modules/insurers/fsc-scraper.service.ts:95-130 | The pool with its shared cache gives every row what enriching it alone would, whichever pages arrive in whatever order, if and only if the given cache agrees with the rows and every row that has six rows before it that really fetch agrees with the earlier rows of its host |
| EnrichmentCache.RunFaithful | branivo-api/src/modules/insurers/website-enrichment.service.ts:31-74 | Under that condition every answer, cached or fetched, is the row's own at every moment of every run |
| EnrichmentCache.Exposed | branivo-api/src/modules/insurers/website-enrichment.service.ts:47-67 | Otherwise some run gives a row another row's details |
| EnrichmentCache.PageIsLate | branivo-api/src/modules/insurers/fsc-scraper.service.ts:106-128 | No page arrives before the workers have taken six rows that fetch, or all rows, since rows that need no request hold no worker up |
| EnrichmentExamples.SharedHostIsSeen | branivo-api/src/modules/insurers/fsc-scraper.service.ts:95-130 | Seven rows, the first and last of one host and all fetching: the last can be given the page of the first |
| EnrichmentExamples.SitelessRowsDoNotWait | branivo-api/src/modules/insurers/fsc-scraper.service.ts:106-114 | The same with no sites in between: every row gets its own page |
| Enrichment.AllWritten | branivo-api/src/modules/insurers/fsc-scraper.service.ts:106-129 | When all workers are done every row has been written |
| Enrichment.NothingToAsk | branivo-api/src/modules/insurers/website-enrichment.service.ts:45-51 | A row without a site, with an empty one or with one that does not parse is answered at once with nothing |
| Enrichment.RunCovers | branivo-api/src/modules/insurers/fsc-scraper.service.ts:104-124 | At any moment a row taken is written or in the hands of exactly one worker |
| Enrichment.Progress | branivo-api/src/modules/insurers/fsc-scraper.service.ts:106-128 | Every resumption of a ready worker is progress, so the pool stops |
| EnrichmentService.EnrichRows | branivo-api/src/modules/insurers/fsc-scraper.service.ts:95-130 | The code is a run of the pool; each row keeps its place, its own data and its own phone, takes the page's phone only if it has none, and holds the addresses of both, equal ones up to case once, its own first; when hosts agree the page is the row's own |
| EnrichmentService.RunWorkers | branivo-api/src/modules/insurers/fsc-scraper.service.ts:104-128 | Whichever ready worker goes on next, the workers end with every slot written from what the pool used |
| EnrichmentService.HostCache.BeginEnrich | branivo-api/src/modules/insurers/website-enrichment.service.ts:45-60 | Empty sites, unparsable ones and cached hosts answer at once; everything else fetches |
| EnrichmentService.HostCache.FinishEnrich | branivo-api/src/modules/insurers/website-enrichment.service.ts:62-73 | A fetched page is cached under its host, a failed fetch is not |
| EnrichmentService.StartWorkers | branivo-api/src/modules/insurers/fsc-scraper.service.ts:126-128 | Six workers, or one per row, take the first rows |
| EnrichmentService.UniqueStrings | branivo-api/src/modules/insurers/insurers.utils.ts:5-15 | The strings at exactly those places where one occurs for the first time, up to case |
| EnrichmentService.FirstsKeepEachKeyOnce | branivo-api/src/modules/insurers/insurers.utils.ts:5-15 | Keeping the first of each key loses no key and keeps none twice |
| EnrichmentService.FirstsOfPrefix | branivo-api/src/modules/insurers/insurers.utils.ts:5-15 | What is kept is the earliest: more input only adds at the end |
| EnrichmentService.FirstsTwice | branivo-api/src/modules/insurers/insurers.utils.ts:5-15 | Filtering again changes nothing |
| EnrichmentService.FirstsAreFirst | branivo-api/src/modules/insurers/fsc-scraper.service.ts:132-146 | What is kept are the values at exactly those positions at which their key is new |
| EnrichmentService.DeduplicateRows | branivo-api/src/modules/insurers/fsc-scraper.service.ts:132-146 | The rows at exactly those places where a key occurs for the first time |
| EnrichmentService.DedupKeyIdentifies | branivo-api/src/modules/insurers/fsc-scraper.service.ts:148-150 | Equal keys mean equal names and numbers up to case, if numbers hold no colon |
| EnrichmentService.SameInsurerSameKey | branivo-api/src/modules/insurers/fsc-scraper.service.ts:148-150 | Rows whose name and number are equal up to case have one key |
| EnrichmentService.Step | branivo-api/src/modules/insurers/fsc-scraper.service.ts:106-122 | A resumed worker stores its page or writes its row and takes the next one, as the pool says |
| RateLimiter.AtMostTenPerWindow | branivo-ocr/main.py:29-48 | In every closed 60-second window of the whole run at most ten requests of a client are admitted |
| RateLimiter.MeteredIs | branivo-ocr/main.py:26-27 | Exactly the paths that begin so are limited |
| RateLimiter.AdmittedIsSpaced | branivo-ocr/main.py:33-47 | The tenth admission after another comes more than a window later |
| RateLimiter.TenthDecides | branivo-ocr/main.py:33-37 | A request is admitted exactly when the tenth admission before it has left the window; refused ones do not count |
| RateLimiter.RetryAfter | branivo-ocr/main.py:38-45 | A refused client that waits exactly the advertised window is served unless all ten blocking admissions fell on the instant of the refusal |
| RateLimiter.Limiter.Handle | branivo-ocr/main.py:25-48 | The middleware refuses exactly when the complete history holds ten admissions in the window; each deque stays sorted, at most ten long, a pruned form of that history; other clients are untouched |
| RateLimiter.Evict | branivo-ocr/main.py:33-35 | After the loop the deque holds exactly the admissions of the last window |
| RateLimiter.Decide | branivo-ocr/main.py:33-47 | The decision on the deque is the decision on the full record |
| CircuitBreaker.CircuitBreakerService.RecordMetric | branivo-api/src/modules/quotes/circuit-breaker.service.ts:67-87 | The pruned list stays the complete history since the last reset cut to five minutes before its newest call; an insurer just recorded is never dropped |
| CircuitBreaker.CircuitBreakerService.Call | branivo-api/src/modules/quotes/circuit-breaker.service.ts:89-107 | A refused call is recorded as an error without latency, a made one with the time it took |
| CircuitBreaker.CircuitBreakerService.GetInsurerMetrics | branivo-api/src/modules/quotes/circuit-breaker.service.ts:109-136 | Every insurer called since its last reset is reported, with the metrics of its complete history cut to five minutes |
| CircuitBreaker.CircuitBreakerService.GetAggregatedCircuitState | branivo-api/src/modules/quotes/circuit-breaker.service.ts:138-151 | Open if any tenant's breaker is open, closed only if all are |
| CircuitBreaker.CircuitBreakerService.ResetBreakersForInsurer | branivo-api/src/modules/quotes/circuit-breaker.service.ts:153-165 | Closes exactly the insurer's breakers and forgets exactly its calls |
| CircuitBreaker.CutTwice | branivo-api/src/modules/quotes/circuit-breaker.service.ts:79-81 | Pruning early never changes what a later cut keeps |
| CircuitBreaker.FromSelects | branivo-api/src/modules/quotes/circuit-breaker.service.ts:79-81 | The cut keeps exactly the calls made at that time or later, in order |
| CircuitBreaker.ErrorRateIsAPercentage | branivo-api/src/modules/quotes/circuit-breaker.service.ts:120-129 | Between 0 and 100; 0 exactly without errors, 100 exactly with nothing else |
| CircuitBreaker.ErrorRateIs | branivo-api/src/modules/quotes/circuit-breaker.service.ts:120-129 | The rate times the calls is a hundred times the number of calls that failed |
| CircuitBreaker.AverageIs | branivo-api/src/modules/quotes/circuit-breaker.service.ts:120-129 | The average times the calls made is the sum of their latencies |
| CircuitBreaker.OneLatency | branivo-api/src/modules/quotes/circuit-breaker.service.ts:120-129 | A single call adds its latency to the sum, one that was refused nothing |
| CircuitBreaker.OpenCallsKeepAverage | branivo-api/src/modules/quotes/circuit-breaker.service.ts:93-96 | Calls refused by an open circuit never move the average latency, wherever they fall |
| CircuitBreaker.AverageBetween | branivo-api/src/modules/quotes/circuit-breaker.service.ts:121-131 | The average lies between the fastest and the slowest call made |
| CircuitBreaker.CodeOfKey | branivo-api/src/modules/quotes/circuit-breaker.service.ts:143-145 | The insurer is recovered from a breaker key when the tenant has no colon |
| LineSplitter.SplitJoins | branivo-api/src/modules/vehicle-catalog/vehicle-catalog-sync.processor.ts:136-141 | Splitting loses and moves no character |
| LineSplitter.SplitCut | branivo-api/src/modules/vehicle-catalog/vehicle-catalog-sync.processor.ts:136-141 | Cutting a text anywhere, the buffer carries exactly what the next chunk continues |
| LineSplitter.RunSeesWholeLines | branivo-api/src/modules/vehicle-catalog/vehicle-catalog-sync.processor.ts:136-150 | However two streams are cut and interleaved, the lines handled from each so far are the finished lines of its text so far |
| LineSplitter.ChunksAreInvisible | branivo-api/src/modules/vehicle-catalog/vehicle-catalog-sync.processor.ts:136-154 | After closing, the lines handled from a stream are the newline split of its whole text, the unfinished last one only if not blank |
| LineSplitter.OutcomeOfOutput | branivo-api/src/modules/vehicle-catalog/vehicle-catalog-sync.processor.ts:123-157 | With a silent error stream total and log do not depend on how the output was cut |
| LineSplitter.TotalDeterminedExactlyWhen | branivo-api/src/modules/vehicle-catalog/vehicle-catalog-sync.processor.ts:123-157 | With both streams, the resolved total is independent of cutting and interleaving exactly when an unfinished last line settles it, only one stream has finished total lines, or both end on the same total |
| LineSplitter.FirstTotalOnTheLine | branivo-api/src/modules/vehicle-catalog/vehicle-catalog-sync.processor.ts:125-128 | Of several totals on one line, as in-place progress output produces, the first counts |
| LineSplitter.TotalIsFirst | branivo-api/src/modules/vehicle-catalog/vehicle-catalog-sync.processor.ts:125-128 | A total is found on a line exactly where the word is followed by white space alone and a digit, and it is that of the first such place |
| LineSplitter.WordIs | branivo-api/src/modules/vehicle-catalog/vehicle-catalog-sync.processor.ts:125-128 | The word is found in any case, its colon included |
| LineSplitter.SpacesAre | branivo-api/src/modules/vehicle-catalog/vehicle-catalog-sync.processor.ts:125-128 | White space is the twenty-five characters of the language |
| LineSplitter.NumberIs | branivo-api/src/modules/vehicle-catalog/vehicle-catalog-sync.processor.ts:125-128 | The number read is that of all the digits that follow one another |
| LineSplitter.MarkIsTransparent | branivo-api/src/modules/vehicle-catalog/vehicle-catalog-sync.processor.ts:125-128 | The mark of the error stream hides no total and makes none |
| LineSplitter.Trimmed | branivo-api/src/modules/vehicle-catalog/vehicle-catalog-sync.processor.ts:125-128 | What is logged is the line without the white space at its ends |
| ScraperRun.Scraper.constructor | branivo-api/src/modules/vehicle-catalog/vehicle-catalog-sync.processor.ts:119-121 | Empty buffers, total zero |
| ScraperRun.Scraper.HandleLine | branivo-api/src/modules/vehicle-catalog/vehicle-catalog-sync.processor.ts:123-134 | A total line sets the total and is not logged; of the others the significant ones are logged, trimmed |
| ScraperRun.Scraper.OnStdout | branivo-api/src/modules/vehicle-catalog/vehicle-catalog-sync.processor.ts:136-141 | The handler keeps buffer, total and log those of the whole stream so far |
| ScraperRun.Scraper.OnStderr | branivo-api/src/modules/vehicle-catalog/vehicle-catalog-sync.processor.ts:143-150 | Likewise, skipping blank lines and marking the others |
| ScraperRun.Scraper.OnClose | branivo-api/src/modules/vehicle-catalog/vehicle-catalog-sync.processor.ts:152-157 | Flushes the unfinished lines and resolves with the last total unless the exit code is not zero |
| ScraperRun.Scraper.HandleLines | branivo-api/src/modules/vehicle-catalog/vehicle-catalog-sync.processor.ts:140 | Finished lines are handled in order |
| ScraperRun.Scraper.HandleErrorLines | branivo-api/src/modules/vehicle-catalog/vehicle-catalog-sync.processor.ts:147-149 | Blank error lines are skipped, the others handled with their mark |
| Utf8Chunks.DecodedExactlyWhen | branivo-api/src/modules/vehicle-catalog/vehicle-catalog-sync.processor.ts:137 | Decoding chunk by chunk gives the text that was written exactly when no chunk starts inside a character |
| Utf8Chunks.DecodeOfEncode | branivo-api/src/modules/vehicle-catalog/vehicle-catalog-sync.processor.ts:137 | Encoded text decodes to itself, whatever follows |
| Utf8Chunks.OnlyEncodingsDecode | branivo-api/src/modules/vehicle-catalog/vehicle-catalog-sync.processor.ts:137 | Bytes give a character other than the replacement exactly if they begin with its encoding; overlong forms and surrogates do not |
| Utf8Chunks.CutCheckMark | branivo-api/src/modules/vehicle-catalog/vehicle-catalog-sync.processor.ts:137 | A check mark cut after its first byte is lost |
| Utf8Chunks.OutcomeOfBytes | branivo-api/src/modules/vehicle-catalog/vehicle-catalog-sync.processor.ts:136-157 | From bytes to total and log: cuts between characters are invisible |
| Vin.Substitution | branivo-ocr/services/vin_service.py:32-41 | Replacing one character of an accepted number is noticed unless its value is the same; the check character must be the very same; characters past the seventeenth are not looked at |
| Vin.ValueByRun | branivo-ocr/services/vin_service.py:20-23 | The letters count up from A, from J and, beginning with two, from S; digits stand for themselves |
| Vin.WeightByPosition | branivo-ocr/services/vin_service.py:24 | The weights fall from eight to two, are ten and none around the check character, and fall from nine to two |
| Vin.Exchange | branivo-ocr/services/vin_service.py:32-41 | Exchanging two characters other than the check character goes unnoticed exactly when their weights or their values are equal |
| Vin.AdjacentExchange | branivo-ocr/services/vin_service.py:24-41 | Exchanging neighbours is noticed unless their values are equal, except in the eighth and ninth positions, where any two digits pass, and in the ninth and tenth, where X and 4 do |
| Vin.CheckDigitExchange | branivo-ocr/services/vin_service.py:24-41 | Exchanging the check character with any other character goes unnoticed exactly when they are equal, when both are digits and the weight is ten, or when one is X and the other the single digit that belongs to the weight |
| Vin.XExchangeExample | branivo-ocr/services/vin_service.py:24-41 | A number with X in the ninth and 4 in the tenth position, accepted both ways round |
| Vin.OneCheckCharacter | branivo-ocr/services/vin_service.py:36-39 | Every body has exactly one accepted check character (section 565.15(c) of 49 CFR Part 565) |
| Vin.FormatIs | branivo-ocr/services/vin_service.py:15-29 | The format test passes exactly seventeen characters of the alphabet, small or capital, with at most a newline after them |
| Vin.AlphabetIs | branivo-ocr/services/vin_service.py:15 | The alphabet is the capital letters without I, O and Q, and the digits |
| Vin.CaseIsIgnored | branivo-ocr/services/vin_service.py:27-41 | Neither test tells small letters from capitals |
| Vin.TrailingNewline | branivo-ocr/services/vin_service.py:15-41 | A final newline passes the format test and does not reach the check digit |
| MrzText.NormalizeVinIsStable | branivo-ocr/services/mrz_parser.py:227-243 | A number is returned exactly when seventeen characters survive; it is well formed and normalising it again changes nothing |
| MrzText.NormalizeVinRecovers | branivo-ocr/services/mrz_parser.py:227-243 | Every misreading of a well-formed number (zero as O or Q, one as I, small or Cyrillic letters of the same shape, foreign characters strewn in) is repaired |
| MrzText.SpacesAreUndone | branivo-ocr/services/mrz_parser.py:88-91 | Blanks that OCR put anywhere into a line of the zone are undone |
| MrzText.FillersAreUndone | branivo-ocr/services/mrz_parser.py:92-99 | Fillers misread as dashes or dots are undone |
| MrzText.RecogniseIsStable | branivo-ocr/services/mrz_parser.py:88-99 | What is recognised is a line of the zone and is recognised as itself |
| MrzText.LinesAre | branivo-ocr/services/mrz_parser.py:87 | A line ends at one boundary character or at a carriage return and a line feed together; a text without one is one line, or none if it is empty |
| MrzText.Stripped | branivo-ocr/services/mrz_parser.py:88 | Stripping takes the white space off both ends |
| MrzText.DetectMrzLines | branivo-ocr/services/mrz_parser.py:80-100 | The loop returns the recognised lines in the order of the text |
| MrzParser.ParseStep1 | branivo-ocr/services/mrz_parser.py:62-75 | Two recognised lines are parsed by position, fewer go to the fallback; the confidence is half for the number, three tenths for the plate and two tenths for the last name, whichever way they were found |
| MrzParser.RoundTrip | branivo-ocr/services/mrz_parser.py:80-154 | Printing a certificate in the documented layout, misreading its number, and parsing the page gives all fields back; the names are lost exactly when their line is shorter than twenty characters |
| MrzParser.Line1ReadsBack | branivo-ocr/services/mrz_parser.py:246-259 | The plate is read back exactly when the document number does not itself start like another plate |
| MrzParser.DocumentTakenForPlate | branivo-ocr/services/mrz_parser.py:133-134 | Otherwise the document number's start is returned as the plate |
| MrzParser.Line3ReadsBack | branivo-ocr/services/mrz_parser.py:146-154 | Last name with its inner blanks, first and middle name are read back |
| MrzParser.NamesAreNotEmpty | branivo-ocr/services/mrz_parser.py:146-154 | A name that is not there is none, not an empty one |
| MrzParser.ShortLineHasNoVin | branivo-ocr/services/mrz_parser.py:119-120 | The search in a second line shorter than a number never finds one |
| MrzParser.SearchIs | branivo-ocr/services/mrz_parser.py:287-292 | The search returns the first seventeen characters in a row that are all of the alphabet, and nothing exactly when there are none |
| MrzParser.SecondLine | branivo-ocr/services/mrz_parser.py:117-126 | A second line of seventeen characters or more gives its first seventeen, repaired, and the ten after them if they are digits |
| MrzParser.Line1Reads | branivo-ocr/services/mrz_parser.py:254-259 | The first field that starts like a plate is the one returned |
| MrzParser.FirstPlate | branivo-ocr/services/mrz_parser.py:246-259 | The plate is that of the first field of the line that starts like one, and there is none exactly when no field does |
| MrzParser.MatchRegIs | branivo-ocr/services/mrz_parser.py:254-259 | What is matched is the longest beginning of the field that is one or two letters, four digits and one or two letters, and nothing exactly when none is |
| MrzParser.PlatesAre | branivo-ocr/services/mrz_parser.py:246-259 | A plate is one or two letters, four digits and one or two letters |
| MrzParser.WholeZoneIsSearched | branivo-ocr/services/mrz_parser.py:133-134 | Then the lines of the zone, one below the other, are searched for one |
| Lockout.LockedIffFive | branivo-api/src/modules/users/users.repository.ts:103-127 | Over every run the lock is set exactly when five or more failures have been counted since the last success, and ends fifteen minutes after the last of them |
| Lockout.TriesAreBounded | branivo-api/src/modules/auth/auth.service.ts:91-114 | With at most s logins of the account under way, at most 4 + s * (1 + floor(T / 900 s)) passwords are tried by a time T after the fifth failure; without overlap that is 5 + floor(T / 900 s) |
| Lockout.BoundIsReached | branivo-api/src/modules/auth/auth.service.ts:91-114 | For every s and every multiple of the lockout time some run reaches the bound |
| Lockout.Spacing | branivo-api/src/modules/auth/auth.service.ts:91-102 | From the fifth failure on, s failures later a full lockout has passed |
| Lockout.RunKeeps | branivo-api/src/modules/auth/auth.service.ts:91-114 | A login under way has waited out the lock of every failure it saw |
| AuthService.Account.constructor | branivo-api/src/modules/auth/auth.service.ts:76-86 | A fresh row |
| AuthService.Account.CheckLock | branivo-api/src/modules/auth/auth.service.ts:83-96 | The login is refused exactly within fifteen minutes of the last of five or more failures |
| AuthService.Account.ComparePassword | branivo-api/src/modules/auth/auth.service.ts:98-114 | A wrong password is answered as locked exactly when five or more failures stand; a right one clears them |
| AuthService.Account.Login | branivo-api/src/modules/auth/auth.service.ts:76-114 | A login no other overlaps: nothing is compared within fifteen minutes of the last of five or more failures, a right password clears them, a wrong one adds to them and is answered as locked from the fifth on |
| AuthService.Account.IncrementAndMaybeLock | branivo-api/src/modules/users/users.repository.ts:103-127 | Counting and locking are one statement |
| AuthService.Account.ResetFailedLoginCount | branivo-api/src/modules/users/users.repository.ts:57-62 | Count and lock are cleared together |
| TokenService.TokenStore.InvalidateAllRefreshTokensForUser | branivo-api/src/modules/auth/auth.service.ts:457-481 | However the cursor loop is paged and whatever other requests do between its commands, every token the user had in the tenant is gone and no other token is gone unless someone else removed it |
| TokenService.TokenStore.DeletePage | branivo-api/src/modules/auth/auth.service.ts:464-478 | One page: the user's tokens in the buckets visited so far are gone for good |
| TokenService.TokenStore.IssueTokens | branivo-api/src/modules/auth/auth.service.ts:265-270 | A token is stored under a name never used before |
| TokenService.TokenStore.Refresh | branivo-api/src/modules/auth/auth.service.ts:160-208 | With other requests between any two of its commands: served exactly when the token was stored at the read and the removal, the look-up and the write work; a token read is gone once its removal has taken effect; the new one belongs to the user; nothing else is removed or added here |
| RefreshProtocol.ServedExactly | branivo-api/src/modules/auth/auth.service.ts:160-208 | Any number of requests with one token, in every interleaving of read, removal, look-up and write, with vanishing keys and failing statements: served are exactly those whose read came before the first removal and that did not fail afterwards |
| RefreshProtocol.AtMostOneServedExactlyWhen | branivo-api/src/modules/auth/auth.service.ts:160-208 | When nothing fails later, the number served is the number of reads before the first removal, so at most one is served if and only if at most one read was |
| RefreshProtocol.SpentOnce | branivo-api/src/modules/auth/auth.service.ts:160-208 | Requests of which only one reads before the first removal, as when they come one after the other, are served at most once, whatever fails |
| RefreshProtocol.ServedHoldTokens | branivo-api/src/modules/auth/auth.service.ts:160-208 | Every request served has left its user a live token of its own |
| RefreshProtocol.TokensAreTheirOwn | branivo-api/src/modules/auth/auth.service.ts:160-208 | No two of these tokens are one |
| RefreshProtocol.OnlyOwnKeys | branivo-api/src/modules/auth/auth.service.ts:160-208 | A statement that breaks changes nothing, and none touches another key than those of the old and of the new token |
| RefreshProtocol.SpentByAllWhenOverlapping | branivo-api/src/modules/auth/auth.service.ts:160-208 | Any number of requests that all read first are all served, and leave as many live tokens |
| RefreshProtocol.SpentTwiceWhenOverlapping | branivo-api/src/modules/auth/auth.service.ts:160-208 | Two requests, one token, both served |
| RefreshProtocol.ReadsAreReaders | branivo-api/src/modules/auth/auth.service.ts:160-208 | A request reads once |
| RefreshProtocol.Reachable | branivo-api/src/modules/auth/auth.service.ts:160-208 | Every run keeps each request in step with what it has read, removed and written |
| Billing.PreviousMonth | branivo-api/src/modules/billing/billing.service.ts:22-29 | A run at any time of a month bills the month before, from its first to its last midnight |
| Billing.YearStarts | branivo-api/src/modules/billing/billing.service.ts:22-29 | The calendar agrees with the Gregorian rule: a year begins 365 days per year, and a day per leap year, after 1970 did |
| Billing.DaysActiveCountsDays | branivo-api/src/modules/billing/billing.service.ts:128-132 | Activation on day d of a D-day month is billed D - d + 1 days, whatever the time of day |
| Billing.DaysActiveInRange | branivo-api/src/modules/billing/billing.service.ts:125-132 | The day count is between 1 and D exactly for activations in the month; a later one is billed zero days or fewer |
| Billing.FeeIsFair | branivo-api/src/modules/billing/billing.service.ts:133 | The fee is within half a cent of the exact share, between zero and the monthly fee, and never higher for a later activation |
| Billing.FirstDayPaysAll | branivo-api/src/modules/billing/billing.service.ts:119-134 | Activation on the first day costs the whole fee by either branch |
| Billing.PeriodsAreDisjoint | branivo-api/src/modules/billing/billing.service.ts:26-28 | No policy is counted in two periods |
| Billing.CountedExactlyWhen | branivo-api/src/modules/billing/billing.service.ts:147-148 | A policy is counted in some period exactly when it was not made after midnight on the last day of its month |
| Billing.CommissionsAreConserved | branivo-api/src/modules/billing/billing.service.ts:138-154 | Every commission is billed once or falls on the last day of a month |
| Billing.PeriodSums | branivo-api/src/modules/billing/billing.service.ts:138-154 | Premiums, numbers and commissions of a period add up over lists of policies |
| Billing.SinglePolicy | branivo-api/src/modules/billing/billing.service.ts:138-154 | A single policy adds its premium, one, and its commission, exactly if it was made from the first midnight of the period to the last |
| Billing.CountIsSize | branivo-api/src/modules/billing/billing.service.ts:138-154 | The number of policies is the number of places in the list whose policy was made in the period |
| BillingService.Service.constructor | branivo-api/src/modules/billing/billing.service.ts:52-58 | No invoices yet |
| BillingService.Service.CreateInvoice | branivo-api/src/modules/billing/billing.repository.ts:29-44 | The unique index lets one invoice per tenant and period in |
| BillingService.Service.ProRata | branivo-api/src/modules/billing/billing.service.ts:118-135 | Only an activation after the period began is billed by days |
| BillingService.Service.GenerateInvoiceForTenant | branivo-api/src/modules/billing/billing.service.ts:88-189 | An existing invoice is returned untouched; a new one counts the policies made from the first midnight of the period to the last, and has the right sums, fee and total; an inactive tenant or a faster run is an error; nothing that exists changes |
| BillingService.Service.RunAllTenants | branivo-api/src/modules/billing/processors/invoice-generation.processor.ts:74-97 | After a run every listed active tenant has exactly one invoice for the period, and earlier invoices are what they were |
| BillingService.FindIsStable | branivo-api/src/modules/billing/billing.repository.ts:46-53 | An invoice found once is the one found ever after |

## Left out

- Controllers, guards, modules, dependency injection, queues and Redis as products: a queue or table is a sequence or map, a key-value store a map.
- SHA-256, bcrypt, JWT, AES, Stripe, S3, e-mail, PDF and archive contents: functions given from outside or outcomes that may go either way. The hash is assumed to have 64 characters, no collision among the rows at hand, and never to be all zeros there.
- opossum's own state machine: whether a breaker is open is an input of `CircuitBreakerService.Call`.
- FleetSafety.Outcome: assumes distinct policy ids, that reads and claims between statements do not fail, and that there was one claim; what a second assembly publishes is not described.
- FleetLateWrite.SecondClaimExactlyWhen: assumes distinct policy ids and that reads and claims do not fail.
- FleetService.FleetPdfExportService.CreateBatchExport: a failing queue insertion ends the call; the runs in which that job and the late write never move are among the runs (`MissingJobBlocks`), but the call itself does not show them.
- FleetSafety.NoLostAssembly: a job that the queue drops without running it three times is outside the model.
- FleetProtocol: the download address and the messages to the broker are not kept, nor is what a reader of an expired archive is told.
- AuditTamper.TamperEvidence: rows after the last common one are not protected, as in the program; years outside 0 to 9999 are outside the date format.
- CanonicalJson.CanonicalText: the text of a number is given, and keys are compared by code points; JavaScript compares UTF-16 units, and lone surrogates are not modelled.
- AuditProtocol.LogIsVerifiable: the stored metadata is assumed to be the given tree up to member order.
- PaymentMoney.MoneyConserved: amounts are integer hundredths where the program multiplies floating-point numbers; Stripe is assumed to refuse a live idempotency key with other parameters.
- PaymentActivation.AtMostOnce: sticker delivery, account events, currency, insurer and address fields are not modelled; for a policy that was there before see `ActivePolicyIsLeftAlone` and `OneJobPerEvent`.
- PaymentService.Pipeline.HandlePaymentSucceeded: one delivery without others in between; what others may do in between is `PaymentProtocol`'s part.
- EnrichmentCache.CacheIsInvisible: the time stamp of a fetch is not part of an enrichment, and a page gives the same details whenever it is fetched.
- EnrichmentService: page extraction, the scraping of the table and the merging with stored rows are left out; lower-casing is a parameter.
- RateLimiter: the clock is monotone and times are real numbers.
- CircuitBreaker: the clock does not run backwards; quotients are exact.
- ScraperRun: log entries are the order of the calls; their unawaited writes may land in another order. Which lines are worth logging is a parameter.
- LineSplitter.TotalDeterminedExactlyWhen: totals are unbounded integers.
- Vin, MrzText: upper-casing is that of ASCII; characters whose capital form has another length are not modelled.
- MrzParser.ParseStep1: the labelled-field fallback and the plate search over the whole text are parameters; the network look-up of a number is left out.
- Lockout: one account; the clocks of database and application are one. Two-factor codes, password resets and the look-up of the tenant are left out.
- TokenService.TokenStore.InvalidateAllRefreshTokensForUser: a token issued to the user while the walk is under way may survive; expiry is one of the things others may do. A walk returns every key that is there from its start to its end, as Redis promises of a scan.
- RefreshProtocol.ServedExactly: the verification and signing of tokens, and their expiry times, are left out; a key may vanish at any moment. New token names are assumed unused.
- Billing: UTC, months from 1970 on, integer hundredths. The policies of a tenant are its active ones; invoices are not deleted; e-mails are left out.
- Soft deletion, administration, consent texts, quotes, scoring, and the web and mobile clients are left out.
