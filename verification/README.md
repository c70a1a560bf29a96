# edu-platform: a verified model

Dafny proofs about the stateful cores of the edu-platform backend. Verify with `dafny verify dfyconfig.toml`.

The models follow the program's own shape. Code that changes rows, Redis keys or module globals is a class whose methods are
proved against steps of a specification (`BillingStore`, `AuthService`, `QuizEditor`, `AttemptDesk`, `AccountService`,
`KnowledgeBase`, `CourseStream.Stream`); the specification modules then prove what each step does, read off the state column
by column (the `...Steps` lemmas and their like), what every step keeps, and what holds over whole runs. Loops of the source
are loops with invariants. Pure code is functions and lemmas.

| core | modules |
|---|---|
| credit ledger, holds, renewals, purchases | `Ledger`, `Billing`, `Settlement`, `Purchases`, `BillingStore` |
| launch, cancel and worker processes of one lesson | `LaunchProtocol`, `LaunchOverlaps`, `LaunchHolds`, `LaunchSlots` |
| refresh-token families | `Sessions`, `AuthService` |
| versioned quizzes, attempts, grading | `QuizVersions`, `QuizEditor`, `Listing`, `StartAttempt`, `TextWords`, `Grading`, `Scores`, `QuizAttempts`, `AttemptMarks`, `QuizOverlaps`, `AttemptDesk` |
| migration guard | `MigrationGuard`, `MigrationOrder`, `CallSource` |
| course-access stream | `CourseStream` |
| account deletion and restore | `AccountLifecycle`, `AccountRaces`, `AccountService` |
| lesson materials and notes | `Materials`, `Notes`, `KnowledgeBase` |
| signed file links | `SignedUrl`, `FileServer` |

How the world enters the model:

- A run is a sequence of committed transactions in commit order; a `FOR UPDATE` read is a fresh read of the committed row. Where
  a request reads, waits and writes without a lock, the read and the write are separate steps (`LaunchProtocol`, `StartAttempt`,
  `QuizOverlaps`, `AccountRaces`, the polls of `Purchases`, the SCAN loop of `AuthService`, the stale rows of `QuizVersions`),
  and a commit writes the columns that differ from what the request read. `QuizAttempts` and `AccountLifecycle` prove what holds
  of whole requests; `QuizOverlaps` and `AccountRaces` prove what is left of it when they overlap.
- What a SELECT or a SCAN returned, what the payment provider, the password check or the content check said, and how short a
  disk read was, are parameters. Signatures are facts: exactly the tokens and links that were signed verify.
- Time is in whole seconds, a token is invalid on and after its `exp` (section 4.1.4 of RFC 7519), new ids are fresh. Decimal
  scores are reals. Python's Unicode and number-printing functions are function parameters (`Grading.Python`, `SignedUrl.Python`,
  `FileServer.Python`); a text in `SignedUrl` is its UTF-8 bytes.
- History that the program does not store (minted tokens, logins, messages sent, slots taken) is kept in extra fields of the
  specification states and in ghost fields of the classes.

Where the code does not do what its comments or its callers expect, the model keeps the code and says exactly when it matters:
a renewal ignores holds (`RenewalStrandsHolds`); the failure branch of payment creation overwrites a settled payment
(`BookedIffNeverOverwritten`); a release after a failed enqueue does not look at the ledger (`UnguardedReleaseIsSafeIff`,
`CompensationIsSafeIff`); a cancel that read the lesson before its latest launch strands the new hold
(`StaleCancelHappens`, `CarriedIffNeverStranded`); the analyze launch tags a trial slot it did not take
(`BackedIffNeverCrossed`); a quiz reorder accepts repeated ids (`ReorderShows`); two attempts can be open at once
(`SecondOpenIff`); weights may be negative (`ClampIdleIffWeightsNonNegative`); question type and payload may disagree
(`MismatchedType`); an override may lower a score (`OverrideMovesScore`) or close an attempt in progress
(`OverrideClosesOpenAttempt`); of two overlapping overrides one loses the other's award in the score (`OverlapIsRightIff`,
`RightThroughoutIff`) or leaves a fully reviewed attempt ungraded (`StaysSubmittedIff`); the grading task overwrites an override
made while it waits (`GradingUndoesOverrideIff`); a restore and a release that overlap leave an account live without its data
(`NoneEverIff`); a link burned in the second it was signed works once more (`SecondUseIff`); a crashed delete or
text save leaves rows without their bytes, where the docstrings promise the opposite (`CrashLeaves`, `TextCrashIsHarmlessIff`);
merged migrations are not always listed oldest first, as the docstring says (`ListedOldestFirstIff`); a literal that ends in a
backslash misleads the call scanner (`OneLiteralCutIff`); a path beginning with a backslash gets a link that never works
(`GeneratedLinkVerifies`); a suffix range serves a prefix (`SuffixRangeIsPrefix`).

## Model

| member | source | states |
|---|---|---|
| `Billing.StepKeepsHolds` | backend/app/services/billing_service.py:174-340 | Every allowed transaction, renewal included, keeps `reserved` equal to the sum of outstanding holds in the ledger and overdraws no ref; the clamp on `reserved` never acts |
| `Billing.FinalizeKeepsHolds` | backend/app/services/billing_service.py:514-578 | A finalizer given the amount its launch reserved keeps the hold sums, and that amount is within `reserved` |
| `Billing.StepGap` | backend/app/services/billing_service.py:174-340 | For every account and step, balance minus ledger sum grows by exactly the part of a charge the balance could not cover |
| `Billing.FinalizeMoves` | backend/app/services/billing_service.py:540-575 | A first finalizer call takes the clamped `spent` out of the ledger sum and the whole estimate out of the holds |
| `Billing.RenewMoves` | backend/app/services/billing_service.py:428-462 | A renewal leaves one allowance plus the old balance up to half an allowance, explained by its rows, and touches no hold |
| `Billing.SingleRowMoves` | backend/app/services/billing_service.py:174-340 | Each other step moves exactly its own amount of credits and of holds |
| `Billing.ReservedFollowsLedger` | backend/app/services/billing_service.py:174-340 | After any step, allowed or not, `reserved` is what it was plus what the new rows hold, cut off at zero |
| `Billing.PlanStays` | backend/app/services/billing_service.py:428-462 | No step changes plan or allowance, and only a renewal moves the end of the period, by thirty days |
| `Billing.StepKeepsSolvent` | backend/app/services/billing_service.py:174-340 | Without renewal an allowed step keeps reserved <= balance and balance equal to the ledger sum, and no `max(0, ...)` in it changes a value |
| `Billing.ReleasingIsSafeIff` | backend/app/services/billing_service.py:204-221 | release_credits keeps the holds right if and only if its amount does not exceed what is outstanding under its ref |
| `Billing.HeldReleaseIsSafe` | backend/app/services/billing_service.py:242-268 | Behind the guard of release_reservation_if_held the reserved amount is exactly what is outstanding, and releasing it is safe |
| `Billing.HoldsAgreeInEveryRun` | backend/app/services/billing_service.py:174-340 | In every disciplined interleaving, renewals included: `reserved` is the sum of outstanding holds, balance >= 0 and balance >= the ledger sum without RESERVE/RELEASE rows |
| `Billing.SolventInEveryRun` | backend/app/services/billing_service.py:174-340 | In every disciplined interleaving without renewals 0 <= reserved <= balance, balance is the ledger sum, and no clamp ever acts |
| `Billing.ClampIdleIff` | backend/app/services/billing_service.py:204-340 | What an idle clamp means: balance and `reserved` both move by exactly what the new rows say |
| `Billing.LedgerExplainsBalanceIff` | backend/app/services/billing_service.py:294-320 | At the end of any run balance equals the ledger sum if and only if no charge of the run met an insufficient balance |
| `Billing.RenewalStrandsHolds` | backend/app/services/billing_service.py:440-462 | A renewal, which ignores holds, leaves the account solvent if and only if the holds fit into carry plus allowance |
| `Billing.ChargeAfterRenewal` | backend/app/services/billing_service.py:440-462 | A hold charged in full after a renewal is under-paid by exactly what carry plus allowance cannot cover |
| `Ledger.HoldWithinTotal` | backend/app/services/billing_service.py:174-201 | When no ref is overdrawn the hold of one ref is part of the total hold |
| `Settlement.ReserveOpensBooks` | backend/app/services/billing_service.py:174-201 | A reservation under a fresh ref opens it with the amount held, nothing charged, nothing released, no finalizer |
| `Settlement.FirstCallSettles` | backend/app/services/billing_service.py:514-578 | The first settling call, finalizer or cancel, splits the whole hold into charge and release and always leaves a finalizer row |
| `Settlement.LaterCallsAreNoOps` | backend/app/services/billing_service.py:224-291 | Once a finalizer row exists, every further finalizer or cancel call leaves the account exactly as it was |
| `Settlement.SettledExactlyOnce` | backend/app/services/billing_service.py:514-578 | For a fresh ref, any mix of repeated finalizer calls with any `spent`, cancel calls and other account steps settles the hold at most once: charged plus released is the amount held, split by the first call |
| `Settlement.UnguardedReleaseIsSafeIff` | backend/app/routers/quiz_teacher.py:445-450 | After any mix of settling calls and other steps, the release of the whole hold after a failed enqueue is safe if and only if nobody has settled the ref, which is what the guard of release_reservation_if_held tests (or nothing was held) |
| `Settlement.ReusedRefHidesHold` | backend/app/services/billing_service.py:224-291 | Freshness is needed: under a ref used before, a new hold is invisible to finalizers |
| `Purchases.EventKeepsBooked` | backend/app/services/billing_service.py:363-410 | Every event but the failure branch of creation on a settled payment keeps one PURCHASE row per succeeded payment and none otherwise |
| `Purchases.BookedInEveryRun` | backend/app/services/billing_service.py:581-626 | In every interleaving of webhook, polling on stale reads, redelivery and cancellation in which no failure branch hits a settled payment, a payment has 1 PURCHASE row if succeeded and 0 otherwise, and purchased credits are the sum over succeeded payments |
| `Purchases.SucceededIsFinal` | backend/app/tasks/payment_pipeline.py:60-115 | Once its creation has ended a succeeded payment stays succeeded, in every run |
| `Purchases.CreateFailureKeepsBookedIff` | backend/app/routers/billing.py:139-150 | The failure branch of creation, which writes `canceled` without reading the row again, keeps the books if and only if the payment has not succeeded meanwhile |
| `Purchases.BookedIffNeverOverwritten` | backend/app/routers/billing.py:139-150 | In every run the books are right at the end if and only if no failure branch of a creation overwrote a settled payment |
| `Purchases.CreditedAtMostOnce` | backend/app/routers/billing.py:157-179 | No payment is ever credited twice, in any run, the failure branch included: after it no webhook finds the payment pending, and no poll finds it pending with a provider id |
| `Purchases.PaidIsCredited` | backend/app/services/billing_service.py:363-410 | A payment the provider has the money for, pending at the webhook or short of succeeded at a poll that saw it pending, succeeds; its buyer alone gets exactly its credits and one PURCHASE row for it |
| `Purchases.OthersCreditNobody` | backend/app/tasks/payment_pipeline.py:72-115 | Every other payment event leaves all balances, holds and PURCHASE rows alone; an answer with the wrong amount, or neither success nor cancellation, changes nothing at all |
| `Purchases.PaymentSteps` | backend/app/routers/billing.py:119-179 | How status, provider id, creation and refund mark of each payment change, column by column, with every event |
| `Purchases.PaymentBegins` | backend/app/routers/billing.py:100-161 | A new payment is pending; a poll remembers exactly the payments it read as pending with the provider's id |
| `Purchases.AccountSteps` | backend/app/services/billing_service.py:174-340 | Any other transaction is one step of one account and touches no payment |
| `Purchases.CreditedIffPaid` | backend/app/tasks/payment_pipeline.py:60-115 | In every run a payment has its one PURCHASE row if and only if at some moment the provider was seen to have the money for it while it was unsettled |
| `BillingStore.Database.ReserveCredits` | backend/app/services/billing_service.py:174-201 | The method is the reserve step, on a created account if there was none, and reports whether the hold was taken |
| `BillingStore.Database.ReleaseReservationIfHeld` | backend/app/services/billing_service.py:224-291 | The cancel path, with its loop over the ref's rows, is the release-if-held step |
| `BillingStore.Database.ReadRef` | backend/app/services/billing_service.py:240-275 | The loop finds the number of reserves and finalizers of a ref and its newest reserve |
| `BillingStore.Database.SyncFinalizeGeneration` | backend/app/services/billing_service.py:514-578 | The finalizer is the settlement step, and reports whether this call settled |
| `BillingStore.Database.ApplyPurchaseOf` | backend/app/services/billing_service.py:363-399 | Crediting a payment is the apply event; it credits exactly when the payment had not succeeded, and then the buyer has its credits more |
| `BillingStore.Database.FinishCreation` | backend/app/routers/billing.py:119-154 | The end of a creation is its done or its failed event |
| `BillingStore.Database.PollMayAsk` | backend/app/routers/billing.py:157-161 | The guard of a poll is the read event: only a pending payment with a provider id is asked about |
| `BillingStore.Database.SettleFromPoll` | backend/app/routers/billing.py:162-179 | What a poll does with the answer, however stale its read, is the apply or the cancel event |
| `BillingStore.Database.SettleFromWebhook` | backend/app/tasks/payment_pipeline.py:60-115 | The settlement of a webhook or reconcile sweep is the settle event; it credits exactly a pending payment that is paid in the right amount, and then the buyer has its credits more |
| `BillingStore.Database.ProcessMonthlyRenewal` | backend/app/services/billing_service.py:428-462 | The loop renews each account on a paid plan whose period has ended, once, to its allowance and at most half of it carried over, and no other account; afterwards no period has ended |
| `LaunchProtocol.InducedIsAllowed` | backend/app/routers/lessons.py:476-518 | Every account step the launch, cancel and worker processes perform meets the discipline under which the account invariants hold |
| `LaunchProtocol.MoveKeepsInv` | backend/app/routers/lessons.py:439-600 | One committed transaction of any process keeps the protocol invariant: private refs, window ownership, at most one claim per launch |
| `LaunchProtocol.ProtocolRefinesAccount` | backend/app/routers/lessons.py:439-600 | Every run of the protocol is a disciplined run of the credit account |
| `LaunchProtocol.ProtocolKeepsHolds` | backend/app/routers/lessons.py:476-518 | While launches do not overlap, no interleaving of compensation, cancel and worker settles a hold twice or overdraws it |
| `LaunchOverlaps.SoundInEveryRun` | backend/app/routers/lessons.py:439-600 | In every run, overlapping launches included, each ref of the lesson was reserved at most once, is fully outstanding until its first finalizer row and at most empty after it |
| `LaunchOverlaps.CompensationIsSafeIff` | backend/app/routers/lessons.py:508-517 | In every run in which the holds were right so far, the broker-failure compensation keeps them right if and only if the guard of release_reservation_if_held would let it through (or the launch was priced at nothing) |
| `LaunchOverlaps.HoldsAgreeIffAllSafe` | backend/app/routers/lessons.py:508-517 | Over every run, overlapping launches included, the holds are right at the end if and only if every compensation that released credits met the guard of release_reservation_if_held, or was priced at nothing |
| `LaunchOverlaps.OverlapReleasesTwice` | backend/app/routers/lessons.py:508-517 | A run of overlapping launches in which a finalized hold is released a second time |
| `LaunchOverlaps.CrossedClaimReleasesUnreserved` | backend/app/routers/lessons.py:508-517 | A run in which a trial launch wins the `credits` of another launch and releases its price under a ref that was never reserved |
| `LaunchHolds.CancelReturnsHold` | backend/app/routers/lessons.py:567-569 | A cancel that won the credits of an unsettled ref takes its whole hold out of `reserved`, leaves the balance and every other ref, and finalizes it |
| `LaunchHolds.WorkerSettlesHold` | backend/app/services/billing_service.py:514-578 | A worker that won them takes what it spent, within the hold, out of the balance and the whole hold out of `reserved`; nothing stays outstanding |
| `LaunchHolds.WorkerChargesWork` | backend/app/services/billing_service.py:514-578 | The charge it writes names the work, a lesson's video or its analysis |
| `LaunchHolds.CompensationReturnsHold` | backend/app/routers/lessons.py:508-512 | A compensation that won credits takes its own launch's hold out of `reserved`, settled before or not |
| `LaunchHolds.LaunchTakesHold` | backend/app/routers/lessons.py:476-494 | A launch on credits takes exactly its price from what is available under its own ref, or is refused and changes nothing |
| `LaunchHolds.OthersLeaveAccount` | backend/app/routers/lessons.py:439-600 | No other move of the lesson touches the account |
| `LaunchHolds.ProcessSteps` | backend/app/routers/lessons.py:439-600 | What each process becomes with each move: who gets past a claim, with which tag, and when it ends |
| `LaunchHolds.ProcessStarts` | backend/app/routers/lessons.py:445-494 | Which process a move starts, with which knowledge of the row |
| `LaunchHolds.RowSteps` | backend/app/services/billing_service.py:343-360 | A launch writes its tag over whatever is on the row, a claim takes the tag away, nothing else changes it |
| `LaunchHolds.SlotSettles` | backend/app/services/quota_service.py:95-106 | The settlement of a video claimant of a trial tag gives up the tag's slot: kept if the worker keeps it, else the counter falls by one, not below zero |
| `LaunchHolds.SlotSteps` | backend/app/services/quota_service.py:76-106 | Otherwise slots are taken by video launches on the trial below the limit, and taken and returned elsewhere |
| `LaunchHolds.CarriedIffNeverStranded` | backend/app/routers/lessons.py:439-600 | Over every run, overlapping launches included: at every moment each hold of the lesson is on its row or with a process that will settle it, if and only if no launch writes over unclaimed credits and no claimant wins the credits of another ref than the one it read |
| `LaunchHolds.NoHoldIsLeft` | backend/app/routers/lessons.py:439-600 | When such a run has ended, all processes finished and the tag claimed, nothing is outstanding under any ref of the lesson |
| `LaunchHolds.StaleCancelStrands` | backend/app/routers/lessons.py:560-569 | A cancel that read the lesson before its latest launch wins the new credits, releases nothing, and leaves the new hold with nobody to settle it |
| `LaunchHolds.StaleCancelHappens` | backend/app/routers/lessons.py:508-569 | A run in numbers, without overlapping launches, after which everybody is finished and a hold stays reserved |
| `LaunchSlots.OneClaimPerWrite` | backend/app/services/billing_service.py:343-360 | In every run whatever, after each write of the lesson row at most one of compensation, cancel and finalizer wins a claim |
| `LaunchSlots.SlotInvInEveryRun` | backend/app/services/billing_service.py:468-476 | In every run whatever, slots are held by the video launches that took them, a tag is won at most once, and the tag of a video launch on the trial comes with its slot until it is settled |
| `LaunchSlots.BackedIffNeverCrossed` | backend/app/routers/lessons.py:561-585 | Over all runs, analyze launches on the trial included, every refund about to be made is backed by a slot of this lesson, each by another one, if and only if no video cancel, compensation or failed worker ever wins a trial tag that an analyze launch wrote |
| `LaunchSlots.RefundKeepsCountIff` | backend/app/services/quota_service.py:95-106 | From a counter that is right, a refund leaves it right if and only if its tag came from a video launch (or the counter is at 0), and then returns exactly one |
| `LaunchSlots.TrialSlotsConserved` | backend/app/models/usage_counter.py:10-16 | In every run without such a crossing, analyze launches and overlaps included, each slot is returned or kept at most once and the counter stays within 0..limit, equal to the slots taken elsewhere, kept and held |
| `LaunchSlots.AnalyzeTagIsUnbacked` | backend/app/routers/slides.py:124-168 | A run without overlaps in which a late video cancel wins the tag of an analyze launch and returns a slot of another lesson |
| `Sessions.EventKeepsInv` | backend/app/services/auth_service.py:288-386 | Every request keeps tokens, records and login history in agreement |
| `Sessions.AcceptedAtMostOnce` | backend/app/services/auth_service.py:311-356 | In every run each refresh jti is accepted at most once |
| `Sessions.RetiredStaysRetired` | backend/app/services/auth_service.py:358-386 | A jti no record carries is never minted into one again |
| `Sessions.DeadFamilyStaysDead` | backend/app/services/auth_service.py:311-356 | Once a family record is deleted or has expired, no token of the family is ever accepted again |
| `Sessions.ReuseEndsFamily` | backend/app/services/auth_service.py:327-335 | Presenting an unexpired rotated token while its family exists deletes the family, for good |
| `Sessions.RefusalEndsFamily` | backend/app/services/auth_service.py:311-356 | A signed token in time that is refused for any reason, a deactivated user included, ends its family for good, also once the user is active again |
| `Sessions.RecordSteps` | backend/app/services/auth_service.py:288-386 | What becomes of each record with each request: a login opens one, a rotation renews it under the old deadline, logout, wipe and refusal delete it, nothing else touches it |
| `Sessions.TokenSteps` | backend/app/services/auth_service.py:119-142 | Exactly which token each request signs, with which expiry |
| `Sessions.PasswordSteps` | backend/app/services/auth_service.py:405-445 | A reset stores the new password, a change does if the old one matches, and nobody else's changes |
| `Sessions.AbsoluteDeadline` | backend/app/services/auth_service.py:295-307 | The deadline set at login is carried through every rotation: every token and record of the family expires no later, and nothing is accepted at or after it |
| `Sessions.SlidingDeadline` | backend/app/services/auth_service.py:119-141 | No refresh is accepted `sliding_days` after a login without a refresh in between |
| `Sessions.SlidingDeadlineAfterRotation` | backend/app/services/auth_service.py:358-386 | Nor `sliding_days` after the last refresh |
| `Sessions.LoginTokenWorksUntilDeadline` | backend/app/services/auth_service.py:288-309 | The token of a login is accepted exactly while its user is active and the sliding window is open |
| `Sessions.RotatedTokenWorksUntilDeadline` | backend/app/services/auth_service.py:119-141 | The token of a rotation is accepted exactly until the nearer of the two deadlines |
| `Sessions.WipeEndsEverySession` | backend/app/services/auth_service.py:408-418 | No refresh token minted before a wipe of the user's keys in one step is accepted after it |
| `Sessions.WipeLeavesOneSession` | backend/app/services/auth_service.py:429-444 | Such a wipe followed by a login leaves exactly one live family, the new one |
| `AuthService.ScanEndsFamily` | backend/app/services/auth_service.py:408-418 | Whatever requests are served during the SCAN loop, refreshes that overwrite the keys included, every family of the user that was logged in before it is dead after it |
| `AuthService.ScanEndsEverySession` | backend/app/services/auth_service.py:408-418 | No refresh token minted before logout_all_sessions began is ever accepted after it, and the families that remain were logged in during the scan |
| `AuthService.ReturnedIsGone` | backend/app/services/auth_service.py:408-418 | A key that some SCAN call returned is gone at the deletion at the latest, whoever wrote it meanwhile |
| `AuthService.ScanSparesOthers` | backend/app/services/auth_service.py:408-418 | The deletions leave every other user's record as it is |
| `AuthService.QuietScanIsWipe` | backend/app/services/auth_service.py:408-418 | With nobody else served, the scan changes nothing but records of the user and leaves none of them live |
| `AuthService.ResetEndsEverySession` | backend/app/services/auth_service.py:420-427 | No refresh token minted before reset_password began is ever accepted after it, whatever is served during its scan |
| `AuthService.ChangeLeavesOneSession` | backend/app/services/auth_service.py:429-444 | After change_password no older token of the user works again, the new family is live, and any other live family was logged in during the scan |
| `AuthService.NewPasswordStays` | backend/app/services/auth_service.py:405-445 | After the scan of a reset or change the new password is stored unless a request served meanwhile set another one; other users have the passwords the served requests leave |
| `AuthService.PatternSelectsOneUser` | backend/app/services/auth_service.py:195-196 | For ids without colons the scan pattern of a user matches that user's keys only, and a key names one user and one family |
| `AuthService.Service.MintPair` | backend/app/services/auth_service.py:358-386 | The method is the mint step; the token expires at the nearer deadline |
| `AuthService.Service.IssueNewSession` | backend/app/services/auth_service.py:288-309 | The method is the issue event |
| `AuthService.Service.RefreshSession` | backend/app/services/auth_service.py:311-356 | The method is the refresh event and hands out a token exactly when the presented one was accepted |
| `AuthService.Service.LogoutAllSessions` | backend/app/services/auth_service.py:408-418 | The loop, with any requests served between its calls, performs the events of the scan, and leaves every family logged in before it dead |
| `AuthService.Service.ResetPasswordTo` | backend/app/services/auth_service.py:420-427 | Performs the scan, whatever is served meanwhile; afterwards the new password is stored unless a served request set another, and other users have what the served requests leave |
| `AuthService.Service.ChangePasswordTo` | backend/app/services/auth_service.py:429-444 | Refuses exactly when the password does not match and then changes nothing; otherwise the same scan, the new password stored, and a new session issued |
| `QuizVersions.WriteKeepsInv` | backend/app/models/quiz.py:93-103 | Every committed write, also one that acts on a row read earlier, keeps versions gapless and all but the newest superseded |
| `QuizVersions.OneCurrentVersion` | backend/app/models/quiz.py:93-103 | After any writes a question id has at most one current row, and it carries the highest version |
| `QuizVersions.RowsAreImmutable` | backend/app/services/quiz_service.py:192-206 | Type, payload, weight and quiz of a row never change and no row goes away |
| `QuizVersions.SnapshotNeverMoves` | backend/app/services/quiz_service.py:265-305 | A snapshot always resolves, and to the same types, payloads, weights and orders, however many writes happen after it |
| `QuizVersions.ResolveReadsRows` | backend/app/services/quiz_service.py:265-288 | A snapshot resolves exactly if every pointer's row exists; each question then has id, version and order of its pointer and type, payload and weight of its row |
| `QuizVersions.RowAdded` | backend/app/services/quiz_service.py:221-255 | Which row a write adds, and that it holds what the insert or edit says, the rest taken from the row the edit read |
| `QuizVersions.RowSteps` | backend/app/services/quiz_service.py:221-255 | Old rows keep their contents; only a successful edit that read the row or a delete supersedes it, only a move changes its order |
| `QuizVersions.EditsNeverChangeScore` | backend/app/routers/quiz_teacher.py:208-341 | So the responses get the same score, and with non-negative weights it lies in [0, 1] |
| `QuizVersions.SnapshotPinsNewest` | backend/app/routers/quiz_student.py:99-106 | A snapshot names each question once, in its newest version |
| `QuizVersions.EditReachesNewAttempts` | backend/app/services/quiz_service.py:221-250 | An edit takes effect exactly when nobody superseded the row it read; then later attempts pin the new version |
| `QuizVersions.LateEditRevives` | backend/app/routers/quiz_teacher.py:288-306 | An edit that read its row before a delete and commits after it brings the question back |
| `QuizEditor.Editor.CreateQuestion` | backend/app/routers/quiz_teacher.py:208-234 | Inserts one row; without a positive order it goes after every current question |
| `QuizEditor.Editor.UpdateQuestion` | backend/app/routers/quiz_teacher.py:241-281 | Content changes supersede the row with version + 1, a bare order moves it in place |
| `QuizEditor.Editor.DeleteQuestion` | backend/app/routers/quiz_teacher.py:288-306 | A delete only stamps the current row |
| `QuizEditor.Editor.ReorderQuestions` | backend/app/routers/quiz_teacher.py:309-341 | Accepts exactly the lists with the same set of ids, and then performs the moves that renumber along the list |
| `QuizEditor.Editor.ReplaceQuestions` | backend/app/services/quiz_service.py:159-189 | Stamps every current row and inserts the batch |
| `QuizEditor.Editor.ResolveSnapshot` | backend/app/services/quiz_service.py:265-305 | The loop resolves the pointers in order, or reports a broken snapshot |
| `QuizEditor.MovesRenumber` | backend/app/routers/quiz_teacher.py:328-332 | The moves of a reorder give the listed ids their last position in the list and change nothing else |
| `QuizEditor.ReplaceShowsBatch` | backend/app/services/quiz_service.py:159-189 | After a replacement the quiz shows exactly the new batch, each in version 1 |
| `QuizEditor.InsertsHold` | backend/app/services/quiz_service.py:159-189 | The k-th draft of a batch becomes the k-th new row with its own type, payload and weight, and its order or else its place |
| `QuizEditor.ReorderShows` | backend/app/routers/quiz_teacher.py:309-341 | After an accepted reorder orders are distinct and the listing is the list of last mentions; it is the requested sequence if and only if no id was listed twice |
| `Listing.NextListing` | backend/app/routers/quiz_teacher.py:328-341 | Renumbering along a list that names all ids yields one listing: the last mentions |
| `Listing.AscendingIsTheListing` | backend/app/services/lesson_material_service.py:385-391 | When orders are pairwise distinct there is exactly one listing |
| `StartAttempt.NumbersAreContiguous` | backend/app/routers/quiz_student.py:336-358 | In every interleaving of start calls the attempt numbers are 1..n in order of commit, with n within attempts_allowed |
| `StartAttempt.InsertNeedsFreshCount` | backend/app/models/quiz.py:149-157 | The UNIQUE constraint accepts an insert exactly when no attempt was committed since the count |
| `StartAttempt.SecondOpenIff` | backend/app/routers/quiz_student.py:316-334 | An insert the constraint accepts opens a second attempt beside an open one if and only if the open-attempt query, repeated at the count, would find an attempt that is not closed before the insert |
| `StartAttempt.TwoOpenAttempts` | backend/app/routers/quiz_student.py:316-358 | A run that ends with two open attempts |
| `StartAttempt.AttemptSteps` | backend/app/models/quiz.py:149-157 | An insert with a free number adds one open attempt, a close closes one, check and count change none |
| `StartAttempt.CallSteps` | backend/app/routers/quiz_student.py:316-358 | How far each call has come after each step, and what it remembers |
| `Grading.GradeMatching` | backend/app/services/grading_service.py:106-127 | The loop over submitted pairs computes the matching grade |
| `Grading.GradeFillBlank` | backend/app/services/grading_service.py:145-168 | The loop over blanks computes the fill-blank grade |
| `Grading.GradeQuestion` | backend/app/services/grading_service.py:193-203 | The dispatch by type computes the grade |
| `Grading.ScoresAreUnit` | backend/app/services/grading_service.py:65-203 | Every grader awards a score in [0, 1] for every payload and response, whatever the type column says |
| `Grading.CorrectMeansFullyRight` | backend/app/services/grading_service.py:65-168 | For a valid payload under its own type, is_correct marks exactly the completely right responses and comes with full score; outside matching full score comes with it |
| `Grading.JaccardIsOne` | backend/app/services/grading_service.py:76-97 | Jaccard similarity is 1 for equal sets only |
| `Grading.MatchingIsCoverage` | backend/app/services/grading_service.py:106-127 | Matching scores 1 exactly when the correct pairs are among the submitted; is_correct exactly when they are all of them |
| `Grading.ShotgunWinsMatching` | backend/app/services/grading_service.py:106-127 | Submitting every pair wins a matching question with full score, not marked correct |
| `Grading.OrderingIsAgreement` | backend/app/services/grading_service.py:130-142 | Ordering is correct exactly when every position agrees |
| `Grading.BlanksAreFilled` | backend/app/services/grading_service.py:145-168 | Fill-blank is correct exactly when every blank has the words of one of its alternatives: of their str() forms, folded by str.lower() if case is ignored, null then being an empty answer |
| `Grading.CollapseJoinsWords` | backend/app/services/grading_service.py:55-59 | The normal form of a text is its words joined by single blanks |
| `TextWords.WordsAreMaximal` | backend/app/services/grading_service.py:55-59 | The words are the longest pieces without a space character, all of them and in order |
| `Grading.CollapseAlikeIff` | backend/app/services/grading_service.py:152-161 | Two texts have the same normal form if and only if they have the same words; a text without space characters is its own |
| `Grading.MultipleCredit` | backend/app/services/grading_service.py:76-97 | Multiple choice awards the options picked rightly over those that are right or were picked |
| `Grading.MatchingCredit` | backend/app/services/grading_service.py:106-127 | Matching awards the right pairs submitted over the right pairs; wrong pairs cost nothing |
| `Grading.OrderingCredit` | backend/app/services/grading_service.py:130-142 | Ordering awards the positions that are right over all positions, nothing for a list of another length |
| `Grading.BlankCredit` | backend/app/services/grading_service.py:145-168 | Blanks award those filled rightly over all blanks |
| `Grading.NotAListIff` | backend/app/services/grading_service.py:76-82 | Which values under a key make a grader refuse: anything but a list, null, false, zero and what is empty |
| `Grading.MismatchedType` | backend/app/routers/quiz_teacher.py:208-234 | When type column and payload disagree, which create_question does not check: when full score, and when is_correct without score, can still occur |
| `Scores.AggregateScore` | backend/app/services/grading_service.py:225-253 | The two loops compute the weighted average and the verdict |
| `Scores.ClampIdle` | backend/app/services/grading_service.py:225-253 | With non-negative weights and awards within their maximum the score lies in [0, 1] without its clamp |
| `Scores.ClampIdleIffWeightsNonNegative` | backend/app/schemas/quiz.py:254-264 | For a positive total weight the clamp is idle for every possible grading if and only if no weight is negative; the schema does not bound weights |
| `Scores.ScoreGrows` | backend/app/services/grading_service.py:225-253 | The score is monotone in every awarded score |
| `Scores.OneAwardMovesScore` | backend/app/services/grading_service.py:225-253 | Changing one award keeps or raises the score if and only if it is not lowered or its question weighs nothing |
| `Scores.OneQuestionIsWorth` | backend/app/services/grading_service.py:225-253 | One question in full and the others not at all score its part of the total weight |
| `Scores.VerdictOf` | backend/app/services/grading_service.py:225-253 | Passed from the threshold on, never without weight |
| `Scores.OrderIsIrrelevant` | backend/app/services/grading_service.py:225-253 | The result does not depend on the order of the items |
| `QuizAttempts.SaveRefusesRepeats` | backend/app/routers/quiz_student.py:382-412 | A save succeeds exactly for an attempt in progress, ids that are all pinned, and no new id sent twice |
| `QuizAttempts.SavedInPlace` | backend/app/routers/quiz_student.py:395-410 | A save leaves in every existing row the last response sent for it and changes nothing else there |
| `QuizAttempts.SubmitAnswersAll` | backend/app/routers/quiz_student.py:486-497 | After a submit every pinned question has exactly one answer |
| `QuizAttempts.EventKeepsInv` | backend/app/routers/quiz_teacher.py:727-785 | Save, submit, override and LLM grading, each as one step, keep every award within its maximum and the stored score equal to the aggregate |
| `QuizAttempts.StoredScoreIsAggregate` | backend/app/tasks/quiz_pipeline.py:320-339 | From a submit on, after any overrides, gradings and redeliveries that do not overlap, the stored score is the weighted average of one answer per pinned question under the pinned weights |
| `QuizAttempts.OverrideMovesScore` | backend/app/routers/quiz_teacher.py:753-782 | An override keeps or raises the stored score if and only if it does not lower the award or its question weighs nothing |
| `QuizAttempts.GradingNeverLowers` | backend/app/tasks/quiz_pipeline.py:396-440 | The LLM grades only answers that count nothing yet, so the score never drops |
| `QuizAttempts.ProvisionalIsLowerBound` | backend/app/routers/quiz_student.py:511-528 | The provisional score at submit is a lower bound for every later one as long as no override lowers an award |
| `QuizAttempts.OverrideClosesOpenAttempt` | backend/app/routers/quiz_teacher.py:727-785 | An override of an attempt in progress closes it with a score over the answers saved so far; the student can neither save nor submit |
| `QuizAttempts.SubmitScoreIsQuizScore` | backend/app/routers/quiz_student.py:499-528 | A submit stores the score of the quiz for the saved responses, whatever order rows were saved in, unanswered questions counting as empty |
| `QuizAttempts.ResultIsFixedAtStart` | backend/app/routers/quiz_student.py:463-528 | Teacher edits between start and submit never change the result: the submit stores the score the quiz of the start gives the saved responses |
| `AttemptMarks.SubmitRefusals` | backend/app/routers/quiz_student.py:463-484 | A submit is refused, in this order, once submitted, for too long a text, for want of a grading slot, the last two only where an open question is asked |
| `AttemptMarks.SaveRefusals` | backend/app/routers/quiz_student.py:382-412 | Which of its three refusals a save meets; an accepted one leaves status and score |
| `AttemptMarks.SaveSets` | backend/app/routers/quiz_student.py:395-410 | An accepted save writes the last response sent into each row that was there, adds an empty-marked row for each item of another question, and nothing else |
| `AttemptMarks.SubmitMarks` | backend/app/routers/quiz_student.py:486-528 | After a submit every row has its question and response of before and its mark: closed ones their grade, open ones a review pending; the attempt waits exactly if an open question is asked, and passes from the threshold on |
| `AttemptMarks.OverrideSets` | backend/app/routers/quiz_teacher.py:744-784 | An override is refused for a missing row or above the maximum only; it sets award, verdict and marks of its row, leaves the others, and grades the attempt once no other row waits |
| `AttemptMarks.GradingSets` | backend/app/tasks/quiz_pipeline.py:408-490 | Grading gives exactly the waiting open answers that have a verdict that verdict, and grades the attempt even if others still wait |
| `AttemptMarks.MarksInEveryRun` | backend/app/tasks/quiz_pipeline.py:320-339 | From a submit on, in every run of whole requests, each row says truly how it was marked, by the model, by hand or by the graders, with the verdict that belongs to it |
| `AttemptDesk.Attempt.SaveProgress` | backend/app/routers/quiz_student.py:382-412 | The loop is the save event with its three refusals |
| `AttemptDesk.Attempt.SubmitAttempt` | backend/app/routers/quiz_student.py:463-546 | The loops of submit are the submit event with its refusals |
| `AttemptDesk.Attempt.OverrideAnswerScore` | backend/app/routers/quiz_teacher.py:727-785 | The read and the rest of an override with nothing in between are the override event |
| `AttemptDesk.Attempt.GradeOpenAnswers` | backend/app/tasks/quiz_pipeline.py:396-470 | The read and the rest of the grading task with nothing in between are the grading event |
| `AttemptDesk.Attempt.CommitOverride` | backend/app/routers/quiz_teacher.py:744-784 | What an override does with the copy it read, however old, is its commit: awards, score, verdict and status of the copy, written where they differ from it |
| `AttemptDesk.Attempt.CommitGrades` | backend/app/tasks/quiz_pipeline.py:458-490 | What grading does with the answers it read is its commit: their grades, then a score over the rows as they are now |
| `QuizOverlaps.UnbrokenCommitIsOverride` | backend/app/routers/quiz_teacher.py:727-785 | A commit with nothing committed since its read is the one-step override |
| `QuizOverlaps.CommitIsRightIff` | backend/app/routers/quiz_teacher.py:753-784 | Whatever was committed between the read of an override and its commit, the stored score is the aggregate of the stored awards afterwards if and only if the other answers still weigh what they weighed when read (or, for an override that leaves the score it read, no award committed meanwhile is overwritten) |
| `QuizOverlaps.OverlapIsRightIff` | backend/app/routers/quiz_teacher.py:727-785 | Override A of one answer commits between the read and the commit of override B of another: the stored score is the aggregate if and only if A did not change the award B read, or B changes none, or the question of either weighs nothing |
| `QuizOverlaps.SameAnswerIsRightIff` | backend/app/routers/quiz_teacher.py:727-785 | Two overlapping overrides of the same answer leave the score right unless the later one writes 0 over an answer that had no award when it was read |
| `QuizOverlaps.PassedBelowThreshold` | backend/app/routers/quiz_teacher.py:778-782 | A run in numbers that ends with a score below the threshold, marked as passed, while the stored awards average above it |
| `QuizOverlaps.StaysSubmittedIff` | backend/app/routers/quiz_teacher.py:780-782 | Overlapping overrides of two answers leave a fully reviewed attempt ungraded if and only if theirs were the last reviews pending |
| `QuizOverlaps.GradingUndoesOverrideIff` | backend/app/tasks/quiz_pipeline.py:408-475 | An override made while the grading task waits keeps its award if and only if it did not grade that answer (or gave it the same award); else the row holds the model's award and still says it was overridden by hand |
| `QuizOverlaps.RightThroughoutIff` | backend/app/tasks/quiz_pipeline.py:320-339 | Over every run of whole requests and of overrides and gradings that overlap in any way, from a submit on: the stored score is the aggregate of the stored awards at every moment if and only if every commit of an override meets the condition of CommitIsRightIff |
| `QuizOverlaps.OverlapLosesAward` | backend/app/routers/quiz_teacher.py:727-785 | From every closed attempt: overlapping overrides that both change an award that counts leave both awards stored and the score without one of them |
| `MigrationGuard.BuildIndex` | backend/app/scripts/migration_guard.py:102-111 | The loop computes the index or the error it raises |
| `MigrationGuard.IndexIsExact` | backend/app/scripts/migration_guard.py:102-111 | The index exists exactly when every file read parses and no revision is declared twice, and then holds exactly the declared revisions |
| `MigrationGuard.PendingRevisions` | backend/app/scripts/migration_guard.py:114-158 | The worklist loop, on any graph, computes the list or the error |
| `MigrationGuard.WalkIsExact` | backend/app/scripts/migration_guard.py:133-151 | From any state of the worklist the walk ends with exactly the unseen revisions reachable avoiding current |
| `MigrationGuard.PendingListIsExact` | backend/app/scripts/migration_guard.py:114-158 | On every parent graph, cycles included, the call succeeds exactly when it is resolvable, and lists without duplicates exactly the revisions reachable from head by a path avoiding current |
| `MigrationGuard.ListsEveryNewAncestor` | backend/app/scripts/migration_guard.py:114-158 | So it lists every ancestor of head that is not an ancestor of current, and only ancestors of head |
| `MigrationGuard.ErrorsNameTheCause` | backend/app/scripts/migration_guard.py:118-158 | Each error names what is wrong: unknown head, unknown current, a pending revision with a parent that is not there, or a current that nothing pending descends from |
| `MigrationGuard.PathsAreDeclared` | backend/app/scripts/migration_guard.py:102-158 | Each listed revision comes with the file that declares it |
| `MigrationGuard.ChainIsListedOldestFirst` | backend/app/scripts/migration_guard.py:114-158 | On single-parent chains it is exactly the segment, oldest first |
| `MigrationOrder.ListedOldestFirstIff` | backend/app/scripts/migration_guard.py:114-158 | On every graph the list is oldest first if and only if no pending revision is its own ancestor and, inside each pending merge, every parent is reached from a later one or shares nothing with the later ones |
| `MigrationOrder.OrderedWalk` | backend/app/scripts/migration_guard.py:133-151 | In such a graph the walk visits every revision after all of its pending children |
| `MigrationGuard.DiamondIsNotOldestFirst` | backend/app/scripts/migration_guard.py:114-158 | In a diamond a revision is listed before its own parent, against the docstring |
| `CallSource.CallSourceAt` | backend/app/scripts/migration_guard.py:161-179 | The scanning loop cuts the text from the opening parenthesis to the end the specification gives |
| `CallSource.CallIsCutExactly` | backend/app/scripts/migration_guard.py:161-179 | For a call whose literals the scan reads right, with nested calls and quoted parentheses, the cut is exactly that call |
| `CallSource.PythonLiteralIsReadIff` | backend/app/scripts/migration_guard.py:170-172 | Of the one-line literals of Python the scan reads right exactly those that do not end in an escaped backslash |
| `CallSource.LiteralIsLeftIff` | backend/app/scripts/migration_guard.py:170-172 | Behind the closing quote of a literal the scan is back outside, unless the body ends in a backslash: then it is still inside |
| `CallSource.OneLiteralCutIff` | backend/app/scripts/migration_guard.py:161-179 | A call of one literal, with no such quote after it, is cut right if and only if the literal does not end in a backslash or the text ends with the call; otherwise the cut takes everything |
| `CourseStream.ChannelNamesStudent` | backend/app/services/course_stream.py:43-48 | A channel belongs to a student exactly when it is that student's channel and the id has no colon |
| `CourseStream.HubInEveryRun` | backend/app/services/course_stream.py:92-148 | After any run the reader runs exactly while somebody is subscribed, no empty set remains, and a queue sent a change since its last read is not empty though puts were dropped |
| `CourseStream.LossyIsEnough` | backend/app/services/course_stream.py:51-61 | Under the same events every client knows at every moment what it would know with unbounded queues |
| `CourseStream.ChangeReachesSubscribers` | backend/app/services/course_stream.py:51-61 | A change reaches exactly the open tabs of its student |
| `CourseStream.ChangeQueues` | backend/app/services/course_stream.py:51-61 | A change is appended to exactly the queues of its student that have room |
| `CourseStream.ForeignChannel` | backend/app/services/course_stream.py:43-53 | A channel that is no student's changes nothing |
| `CourseStream.ReadTakesOldest` | backend/app/services/course_stream.py:121-148 | A client takes the oldest message of its own queue and then knows all that was sent |
| `CourseStream.TabsAndReader` | backend/app/services/course_stream.py:92-161 | Over every run the hub holds exactly the tabs opened for each student and not torn down or shut down since, and the reader runs exactly while there is one |
| `CourseStream.Stream.Open` | backend/app/services/course_stream.py:121-141 | Subscribing is the subscribe event |
| `CourseStream.Stream.UnregisterQueue` | backend/app/services/course_stream.py:110-118 | Teardown is the unregister event |
| `CourseStream.Stream.DispatchChange` | backend/app/services/course_stream.py:51-61 | The loop over the student's queues, in any order, is the dispatch event |
| `CourseStream.Stream.ShutDown` | backend/app/services/course_stream.py:151-161 | Shutdown is the shutdown event |
| `AccountLifecycle.AnonymizedForever` | backend/app/services/account_service.py:75-118 | While restores and releases do not overlap, an anonymized row is never active or restorable again, in any run; it stays as it is until a purge removes it |
| `AccountLifecycle.LiveRowsAreNeverAnonymized` | backend/app/services/account_service.py:450-477 | No link, however old, that is followed in one step anonymizes or removes a row whose deleted_at is null |
| `AccountLifecycle.RestoreOnlyInWindow` | backend/app/services/account_service.py:379-420 | A deleted row comes back if and only if a proven restore arrives inside the window of its latest deletion |
| `AccountLifecycle.RestorableXorPurgeable` | backend/app/constants.py:883-886 | A deleted row is restorable or purgeable, never both, and neither only at one second |
| `AccountLifecycle.MailedLinkCoversWindow` | backend/app/services/account_service.py:349-372 | The restore link mailed with a deletion works exactly as long as the window is open |
| `AccountLifecycle.LinkIsSingleUse` | backend/app/services/account_service.py:160-190 | A delete or release link burned after the second it was signed in is never accepted again |
| `AccountLifecycle.SecondUseIff` | backend/app/services/account_service.py:187-190 | A delete or release link burned in its own second is accepted once more, exactly in the second the burn key and the link run out together |
| `AccountLifecycle.DeletedTwice` | backend/app/services/account_service.py:286-316 | With a restore in between, that second use deletes the account again |
| `AccountLifecycle.ReleaseTakesEffectOnce` | backend/app/services/account_service.py:450-477 | A release link that has anonymized a row changes no row ever again, however often it is accepted |
| `AccountLifecycle.DeleteLinksAreApart` | backend/app/services/account_service.py:262-283 | Delete links of one user are signed at least the cooldown apart |
| `AccountLifecycle.RowSteps` | backend/app/services/account_service.py:286-477 | What becomes of each column of a user row with each event: deletion, restore, anonymization, removal, and nothing else |
| `AccountLifecycle.RowBegins` | backend/app/services/auth_service.py:231-245 | A row comes into being by registration only, live and with its data |
| `AccountLifecycle.MailSteps` | backend/app/services/account_service.py:262-372 | Exactly which link each event mails |
| `AccountLifecycle.BurnSteps` | backend/app/services/account_service.py:160-195 | Exactly which link each event burns, and for how long, and which cooldown it sets |
| `AccountLifecycle.CourseworkIsKept` | backend/app/tasks/purge_pipeline.py:377-389 | Over every run a row is removed only by a purge that found no learning data, after its window |
| `AccountRaces.UnbrokenRestore` | backend/app/services/account_service.py:379-420 | A restore with nothing committed between its read and its commit is the one-step event |
| `AccountRaces.UnbrokenRelease` | backend/app/services/account_service.py:450-477 | A release with nothing committed between its read and its commit is the one-step event |
| `AccountRaces.NoneEverIff` | backend/app/services/account_service.py:468-472 | Over every run of whole requests and of restores and releases that overlap in any way, no account is ever live and anonymized at once if and only if every commit finds its row as it was read: a restore no anonymized row, a release no restored one |
| `AccountRaces.AnonymizedRevivesIff` | backend/app/services/account_service.py:451-455 | In every run an anonymized account comes back to life if and only if a restore that read the row before it was anonymized commits while the row is still there |
| `AccountRaces.RestoreRevivesAnonymized` | backend/app/services/account_service.py:411-418 | For every account in its window, a release between the read and the commit of a restore leaves it live without its personal data |
| `AccountRaces.ReleaseAnonymizesRestored` | backend/app/services/account_service.py:468-477 | A restore between the read and the commit of a release leaves the live account anonymized, which the second look at deleted_at was to prevent |
| `AccountService.Accounts.CommitUser` | backend/app/services/account_service.py:411-419 | The commit of a request that read the row earlier writes exactly the columns it changed on its copy |
| `AccountService.Accounts.BurnLink` | backend/app/services/account_service.py:147-190 | Succeeds exactly for a usable link, and then burns it |
| `AccountService.Accounts.ConfirmAccountDeletion` | backend/app/services/account_service.py:286-316 | The method is the confirm-deletion event |
| `AccountService.Accounts.RestoreAccount` | backend/app/services/account_service.py:379-420 | The method is the restore event and succeeds exactly for a restorable row |
| `AccountService.Accounts.ConfirmEmailRelease` | backend/app/services/account_service.py:450-477 | The method is the confirm-release event |
| `AccountService.Accounts.AnonymizeUserFields` | backend/app/services/account_service.py:75-98 | Strips the personal fields of one row and leaves every other row and deleted_at alone |
| `AccountService.Accounts.PurgeUsers` | backend/app/tasks/purge_pipeline.py:340-389 | The loop over scanned rows performs one purge event each |
| `Materials.CapsInEveryRun` | backend/app/services/lesson_material_service.py:176-266 | Over every run, crashes included, file count, inline count and total bytes never exceed their caps |
| `Materials.AdmitIff` | backend/app/services/lesson_material_service.py:176-236 | Below the caps an upload is stored exactly when it passes every limit |
| `Materials.AdmitRefusals` | backend/app/services/lesson_material_service.py:147-236 | Which refusal an upload meets, in order, and which of the two size limits is named |
| `Materials.AddStores` | backend/app/services/lesson_material_service.py:236-266 | An admitted upload is stored as it came, as a new row with a new object; a crash leaves the object without the row; a refusal changes nothing |
| `Materials.DeleteTakes` | backend/app/services/lesson_material_service.py:372-382 | A delete takes the rows of its id and nothing else; a crash keeps rows and text |
| `Materials.InlineCounts` | backend/app/services/lesson_material_service.py:176-200 | The inline count is the number of inline rows |
| `Materials.SaveTextSweeps` | backend/app/services/lesson_material_service.py:338-358 | After a saved text body every inline row is referenced, and every other row is still there |
| `Materials.CrashLeaves` | backend/app/services/lesson_material_service.py:338-382 | Exactly which rows lose their object, and which objects have no row, after each step and each crash, a crash inside a text save included |
| `Materials.TextCrashIsHarmlessIff` | backend/app/services/lesson_material_service.py:338-358 | A text save that crashes leaves every row its bytes if and only if it had removed no object yet |
| `Materials.NoRowDangles` | backend/app/services/lesson_material_service.py:338-382 | Without crashes every row has its object, in every run |
| `Materials.CrashedDeleteDangles` | backend/app/services/lesson_material_service.py:372-382 | A delete that crashes half way leaves a row whose bytes are gone, the opposite of what the docstrings say |
| `Notes.OrdersStayDistinct` | backend/app/services/lesson_material_service.py:401-431 | Over every run note orders stay pairwise distinct and a lesson never exceeds its number of notes |
| `Notes.CreateGoesLast` | backend/app/services/lesson_material_service.py:414-426 | A new note goes after every other |
| `Notes.NoteSteps` | backend/app/services/lesson_material_service.py:401-448 | A full lesson refuses a note, the first one has order 0, a delete takes its own note only |
| `Notes.ReorderShowsRequest` | backend/app/services/lesson_material_service.py:451-470 | A list is accepted exactly when it is a permutation of the notes; the next listing is then that list, and otherwise the old one |
| `KnowledgeBase.Lesson.AddMaterial` | backend/app/services/lesson_material_service.py:176-266 | The method is the upload event, with its refusals in order |
| `KnowledgeBase.Lesson.SaveTextBody` | backend/app/services/lesson_material_service.py:338-358 | The loop is the save-text event and returns the swept rows |
| `KnowledgeBase.Lesson.DeleteMaterial` | backend/app/services/lesson_material_service.py:372-382 | The method is the delete event |
| `KnowledgeBase.Lesson.CreateNote` | backend/app/services/lesson_material_service.py:401-431 | The method is the create event |
| `KnowledgeBase.Lesson.ReorderNotes` | backend/app/services/lesson_material_service.py:451-470 | The loop is the reorder event and accepts exactly the permutations |
| `SignedUrl.UnquoteQuote` | backend/app/services/signed_url_service.py:42-46 | Percent-decoding undoes percent-encoding, for every text and safe set without a percent sign |
| `SignedUrl.ParseOfGenerated` | backend/app/routers/files.py:121-137 | Parsing a generated link gives back path, uid and expiry whatever characters they hold, and is refused outright exactly for videos and an empty uid |
| `SignedUrl.NormalTwice` | backend/app/services/signed_url_service.py:25-26 | The normal form is its own normal form exactly when it does not begin with a slash |
| `SignedUrl.NormalForm` | backend/app/services/signed_url_service.py:25-26 | The normal path is what follows the slashes at the front, every backslash made a slash |
| `SignedUrl.VideoIff` | backend/app/routers/files.py:126-130 | A path counts as a video's exactly if it is the videos directory or lies in it |
| `SignedUrl.GeneratedLinkVerifies` | backend/app/routers/files.py:110-143 | A generated link verifies exactly before its expiry, outside videos, with a uid, and when the normal path does not begin with a slash; the answer carries the seconds left |
| `SignedUrl.PayloadDetermines` | backend/app/services/signed_url_service.py:38-39 | With user ids free of colons the signed payload names one path, user and expiry |
| `SignedUrl.SignatureIsNotTransferable` | backend/app/services/signed_url_service.py:48-55 | A signature is accepted only for the file, user and expiry it was issued for |
| `SignedUrl.ColonUidCollides` | backend/app/services/signed_url_service.py:38-39 | A colon in a user id would let one signature stand for two requests |
| `FileServer.StreamFile` | backend/app/routers/files.py:36-45 | However short the reads, the loop streams exactly the requested bytes that exist, in non-empty chunks within the chunk size |
| `FileServer.Serve` | backend/app/routers/files.py:71-107 | An accepted range returns exactly the announced bytes |
| `FileServer.PlainRange` | backend/app/routers/files.py:79-98 | A range a-b is served as asked exactly when it lies inside the file |
| `FileServer.OpenRange` | backend/app/routers/files.py:79-98 | A range a- is served to the end of the file exactly when it begins inside it |
| `FileServer.NoHeader` | backend/app/routers/files.py:71-77 | Without a header, or with an empty one, the whole file is served |
| `FileServer.BrokenRange` | backend/app/routers/files.py:79-91 | A header without a unit, of another unit, or with a bound that is no number is an invalid range |
| `FileServer.SuffixRangeIsPrefix` | backend/app/routers/files.py:79-98 | The suffix form of section 2.1 of RFC 7233 is read as a prefix |

## Left out

- SettledExactlyOnce: asks for a ref that was never used before; call sites append a random suffix or a fresh uuid.
- ProtocolKeepsHolds: assumes a launch writes the lesson row only when no other launch of the lesson is between its own write and the end of its request; OverlapReleasesTwice and CrossedClaimReleasesUnreserved show that the hold sums need this, and CompensationIsSafeIff says exactly when a compensation is safe without it.
- HoldsAgreeInEveryRun: assumes the discipline of `Billing.Allowed`; ReleasingIsSafeIff and UnguardedReleaseIsSafeIff say exactly when a release outside it does harm.
- CompensationIsSafeIff: assumes that refs are fresh and that the owner's other traffic keeps to its own refs.
- NoHoldIsLeft: speaks of runs in which nothing is stranded; CarriedIffNeverStranded says exactly which these are, StaleCancelHappens that there are others.
- TrialSlotsConserved: assumes that no video claimant wins a trial tag of an analyze launch; BackedIffNeverCrossed shows that this is exactly what backed refunds need.
- CallIsCutExactly: speaks of calls whose literals are all read right; a call with several misread literals can come out right by accident. Comments and triple-quoted texts that hold quotes are not modelled.
- MarksInEveryRun: speaks of whole requests; GradingUndoesOverrideIff says when a grading and an override that overlap leave a row with the marks of both.
- CollapseAlikeIff: assumes that a blank is a space character for str.isspace().
- ProvisionalIsLowerBound: assumes no override lowers an award, and none overlaps with another or with grading; OverrideMovesScore says exactly when one lowers the score.
- LinkIsSingleUse: speaks of links burned after the second they were signed in; SecondUseIff covers that second.
- LossyIsEnough: speaks of changes that reach the reader; messages published while the reader reconnects are lost for every queue alike.
- A second logout-all, reset or change that runs beside a scan counts as one step, or as its single deletions.
- One active generation per lesson: the launch reads the lesson's status but does not set it.
- reserved <= balance across renewals, and re-aggregation over all pinned questions for overrides of attempts in progress: false of the code, see above.
- StoredScoreIsAggregate: speaks of overrides and gradings that do not overlap; CommitIsRightIff, OverlapIsRightIff and RightThroughoutIff say exactly when the score stays right where they do.
- EventKeepsInv: the same, for its overrides and gradings.
- AnonymizedForever: speaks of restores and releases that do not overlap; AnonymizedRevivesIff says exactly when an overlap revives a row.
- LiveRowsAreNeverAnonymized: the same; NoneEverIff is the condition for every run with overlaps.
- RightThroughoutIff: speaks of closed attempts; an override that overlaps with a save or the submit of an attempt in progress is not modelled.
- NoneEverIff: a confirmed deletion and a purge of one row are one step each.
- Interleaving inside one refresh, confirm-deletion, save or submit request: each is one step.
- The ORM's leaving out of an unchanged `billed_via`: the models of the launch assume that each launch writes its tag, also where the session, finding it equal to the one it read, would send no UPDATE of that column.
- Access tokens and their blacklist, email verification, OAuth sign-in, email change.
- Pricing formulas, plan configuration, retention extension, the one-time welcome credits of paid plans, the transaction history.
- Quiz generation by LLM, the metering of AI grading beyond its holds, lesson progress, manual lesson grades.
- Rounding of NUMERIC columns (scores to four places, weights to three) and overflow of SQL integers.
- The regular expressions that read a revision file, the scan for dangerous migration operations, the reference pattern in markdown bodies: their results are parameters.
- JSON numbers that are infinite or not a number, lone surrogates in texts, int() spellings other than what str() prints beyond what the parameters allow.
- The text of URLs that were not generated here beyond path, query and fragment: schemes, hosts and path parameters.
- Resolving a path against the storage root and the check for `..` before it; uploading and reading the bytes themselves, magic-byte and zip checks, S3 delivery, nginx, caching headers.
- Email, SSE transport, Celery retries and queues, analytics, the frontend, schema migrations themselves.
