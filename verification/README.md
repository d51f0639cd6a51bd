# A verified model of the bounded assistant backend

The assistant backend answers chat messages under money, token and request limits. This project models the parts of it
that keep those limits true while many requests and workers run at once, and proves what they promise. `dafny verify
dfyconfig.toml` checks everything.

Each stored table is a map or a sequence, each committed transaction or guarded UPDATE is one atomic step, and a rollback
restores the committed state. Code that changes rows, fields or locals step by step is a class or a method proved against a
specification function; the theorems are lemmas about those functions, over every input, every run or every interleaving.

- **The ledger** (`Budget`, `Admission`, `Conservation`, `Owners`, `Uses`, `BillingPeriods`, `Calendar`): a request takes one hold that raises a
  daily window, a billing period and a platform day together; it is settled, released or reclaimed later. Counters are sums
  over unbounded tables. An append-only journal of effects, which the code keeps only as log lines and cost rows, says what
  each counter stands for.
- **One message** (`Message`, `ExactlyOnce`, `Charges`, `Slots`): reserve and commit, generate with no transaction open, then write
  run, outbox event, evidence, slots and the end of the hold in one commit. A fault may be raised at any step, and other
  transactions may commit at each of the three points where the message has none open. Those others are any function that
  deletes no row, gives back no slots but its own and keeps a sound store sound; `ExecuteFollows` shows that messages
  themselves are such. Each message run is told apart by the identifier its own run would get.
- **The delivery worker** (`Delivery`, `Workers`, `RowHistories`): one worker's pass as a class, and any number of passes
  interleaved as a state machine with crashes.
- **Ed25519** (`Congruence`, `Primes`, `Doubling`, `Ed25519`, `Projective`, `PointCodec`, `Decoding`, `Signatures`): modulus,
  curve constant and hash are parameters, and each lemma names the facts it needs. That the modulus is prime, of the form
  8k + 5, and the constant no square is what section 5.1 of RFC 8032 says of its own; Fermat's little theorem, the
  completeness of addition and the round trips are proved from it.
- **The model gateway** (`Sorting`, `Router`, `Health`, `Gateway`): routing, at most two attempts, and the breaker, cooldown
  and disabling state, with a provider's answers given as any function of the model.
- **Smaller machines**: `RateLimiter`, `History`, `PolicySelect`, `Billing`, `Bundles`.

## What does not hold, and exactly when it does

- A finisher subtracts the amounts its caller remembers. The books stay explained if and only if that copy matches the row
  (`FinishExplainedIffCopyMatches`). A stalled owner whose row was reclaimed and reserved again breaks them
  (`StalledOwnerBreaksBooks`, `StalledOwnerExample`); they hold as long as nobody reserves while another request in flight
  has outlived its lease (`PunctualOwnersMatch`).
- Use counts need no such hypothesis: they stay between zero and their limit on every run on which each request leaves with
  the copy it holds (`OwnCopiesKeepUsesInBounds`). The handler of a failed write is different, since its rollback makes the
  session read the row again: when that row was meanwhile reserved by another request in another window, the handler gives
  back that request's use. A count falls below zero only after such a robbery (`UsesStayWithinLimits`), at exactly the
  release that finds no use left (`UseGoesNegativeIff`), and `RobbedRunGoesNegative` is a run from the empty books that does
  so although every request leaves once.
- Reserving a row again does not refresh `created_at`, so such a hold may be open to the next sweep at once
  (`LeaseOfGrantedHold`).
- A row is claimed more than `MAX_ATTEMPTS` times exactly when a pass that had marked exhausted rows before the last allowed
  claim, with a stamp more than a lease after it, claims the row while it is open (`ExcessIffOvertaken`).
  `SixClaimsAreMade` is a run from the empty queue with six claims. Each such pass adds at most one claim, so a row still
  changes a bounded number of times (`ChangesAreBounded`).
- `_recover_x` tests the unreduced quotient, so y = p - 1 with the sign bit set decodes to the coordinate p and is not given
  back unchanged; for a prime modulus it is the only such string (`StringsRoundTrip`, `OneStringIsNotGivenBack`).
- A paid access code on a cancelled subscription reports a change but leaves the account on the free plan
  (`CodesNeverDowngrade`).
- Two delivery orders of the same billing events agree on plan, status, version and unlocked tier
  (`UnlockedTiersConverge`), and on the theme in use exactly when the lowest tiers they pass through agree below it
  (`ThemesAgreeIff`); `ThemesMayDiffer` gives orders for which they do not.
- With epsilon 1 the exploration flag compares with the first name instead of the greedy action (`ExplorationFlag`).
- When generating raises, all slots of the message stay used (`SlotsKept`); when a failure's handler cannot commit, its hold
  stays open until a sweep (`NoHoldIsLeft`).

## Model

| member | source | states |
|---|---|---|
| Calendar.PeriodIsTheGap | src/daily_agent/services.py:91-109 | the computed billing period is the gap between two consecutive monthly anniversaries, short months clamped, that holds the date |
| Calendar.PeriodIsTheOnlySuchSpan | src/daily_agent/services.py:91-109 | the period is the one span whose start and reset each carry the anchor's own day, or the last day of a month without it, in consecutive months with the date between them; the period of the anchor date starts at the anchor |
| Calendar.MonthLengthsAreGregorian | src/daily_agent/services.py:99-101 | month lengths, counted up over any number of months and leap years, agree with the closed form of the Gregorian calendar |
| Calendar.PeriodsTile | src/daily_agent/services.py:91-109 | a date lies inside a period if and only if that is its own period, for any anchor |
| Calendar.PeriodAtReset | src/daily_agent/services.py:91-109 | the period found at a reset starts at that reset |
| Calendar.DayNumberOrders | src/daily_agent/services.py:91-109 | day numbers order dates as the calendar does, so tiling of dates is tiling of time |
| Calendar.InstantsTile | src/daily_agent/services.py:91-109 | every instant lies in its period, and an instant shares a period if and only if it lies between that start and that reset; other periods lie wholly before or after |
| Budget.Ledger.SettleBudget | src/daily_agent/services.py:455-544 | the claimed row and all four counters after settling, known or unknown, from the caller's copy; nothing happens unless copy and row are both reserved; raises exactly on a missing window |
| Budget.Ledger.ReleaseBudget | src/daily_agent/services.py:547-591 | the row and counters after a refund, guarded by the row alone |
| Budget.Ledger.ReclaimStale | src/daily_agent/services.py:346-375 | the loop over at most 100 candidates equals the sweep of the abandoned ones |
| Budget.Ledger.EnsureUsageWindow | src/daily_agent/services.py:179-225 | today's window and platform day exist with the plan's limits, and existing rows are kept |
| Budget.Ledger.EnsureUsagePeriod | src/daily_agent/services.py:228-265 | works with the account's active row that resets first, or a new one; raises exactly when the new key is taken by an expired row |
| Budget.Ledger.ReserveHold | src/daily_agent/services.py:378-452 | the three guards in order, each refusal with its reason and reset time, and the three counters raised together |
| Budget.Ledger.ReserveBudget | src/daily_agent/services.py:268-336 | the whole reserving transaction, every exit, with all refusals rolled back |
| Admission.OutcomeIsTheFirstObstacle | src/daily_agent/services.py:303-452 | a request is granted if and only if, in the committed books, settled plus reserved plus its amount is within the limit of its window, tokens, period and day and a use is left; otherwise it is refused with the reason and reset time of the first of these that fails, whatever the sweep finds |
| Admission.DecidedOutcomes | src/daily_agent/services.py:278-291 | rejected if and only if the amount is not positive, answered with the row if and only if it is settled or unknown, in flight when it is reserved and younger than 120 seconds; nothing changes |
| Admission.GrantAddsWhatWasAsked | src/daily_agent/services.py:303-336 | a grant adds exactly the amount to its window, period and day, the tokens to its token quota and one use, creates missing rows with the limits of the plan, and leaves one open row for the request |
| Admission.GrantReclaims | src/daily_agent/services.py:346-375 | of the other rows a grant closes exactly those among the first hundred candidates reserved at least 120 seconds ago, as unknown |
| Conservation.FinishKeepsExplained | src/daily_agent/services.py:455-591 | settling or releasing with a matching copy keeps every counter equal to the sum it stands for |
| Conservation.FinishExplainedIffCopyMatches | src/daily_agent/services.py:475-591 | the books stay explained if and only if the copy of an effective finisher matches the row |
| Conservation.FinishedOnce | src/daily_agent/services.py:455-591 | any number of finishers on one hold change the books exactly once |
| Conservation.ClosedForGood | src/daily_agent/services.py:475-482 | once closed, no finisher changes the books through that row |
| Conservation.SweepConserves | src/daily_agent/services.py:346-375 | a sweep leaves reserved plus settled of every counter, and every use count, unchanged |
| Conservation.SweepTouchesOnlyAbandoned | src/daily_agent/services.py:339-375 | a sweep closes exactly the candidates past the lease, as unknown, and no other row |
| Conservation.ReserveTakes | src/daily_agent/services.py:303-336 | a granted reservation takes one reserved row for exactly the request from a state where none was open under its key |
| Conservation.BooksAreExplained | src/daily_agent/services.py:268-591 | in any interleaving with matching copies, window, period, day and token counters are the sums over reserved rows and charges, and uses are holds taken minus refunded |
| Conservation.CapsHold | src/daily_agent/services.py:378-510 | on every run, matching copies or not, no cap is passed by more than settlements exceeded their holds, and uses never pass their limit |
| Conservation.NothingGoesNegative | src/daily_agent/services.py:455-591 | with matching copies no reserved amount goes below zero, and no use count does however often a copy is used |
| Conservation.DayIsSumOfWindows | src/daily_agent/services.py:430-591 | on every run, matching copies or not, each platform day's reserved and settled are the sums over that day's windows |
| Owners.OtherRowsStay | src/daily_agent/services.py:268-336 | a granted reservation changes no live row but its own |
| Conservation.OnlyGrantsChange | src/daily_agent/services.py:268-336 | anything but a granted reservation leaves the books unchanged |
| Owners.PunctualOwnersMatch | src/daily_agent/services.py:268-591 | while nobody reserves past an owner's lease, every copy in flight matches its row and the books are explained, crashes included |
| Owners.StalledOwnerBreaksBooks | src/daily_agent/services.py:303-323 | after a reclaim and re-reservation the old owner's finisher keeps the books explained if and only if the new amounts equal the old |
| Owners.StalledOwnerExample | src/daily_agent/services.py:303-323 | a concrete run on which the books break |
| Uses.UsesAreBacked | src/daily_agent/services.py:378-420 | on every run a window's use count plus the robberies of it covers the requests in flight that may still give a use back |
| Uses.UsesStayWithinLimits | src/daily_agent/services.py:547-578 | on every run, however late the owners, a use count never passes its limit, and is negative only after a handler gave back another request's use |
| Uses.OwnCopiesKeepUsesInBounds | src/daily_agent/services.py:547-578 | when every request leaves with the copy it holds or crashes, every use count stays between zero and its limit |
| Uses.UseGoesNegativeIff | src/daily_agent/services.py:565-572 | a move takes a use count below zero exactly when it releases an open hold into a window with no use left |
| Uses.RobbedRunGoesNegative | src/daily_agent/api.py:567-575 | a run of five moves from the empty books, each request leaving once, that ends with a use count of minus one |
| Uses.RoomOnANewDay | src/daily_agent/services.py:287-323 | a released or abandoned row is reserved again in a new window whenever plan, period and platform allow it |
| Owners.RoomAfterReclaim | src/daily_agent/services.py:287-318 | an expired hold is reserved again whenever there is room before the reclaim |
| Owners.LeaseOfGrantedHold | src/daily_agent/services.py:305-345 | a granted hold is open to an immediate sweep if and only if its row is at least a lease old |
| BillingPeriods.ActiveRowIsCurrent | src/daily_agent/services.py:228-265 | an active row is the row of the billing period that holds the instant, and conversely |
| BillingPeriods.PeriodIsDetermined | src/daily_agent/services.py:228-265 | the row worked with depends on account and instant alone |
| BillingPeriods.EveryRowIsABillingRow | src/daily_agent/services.py:228-265 | on every run under a forward clock each period row is some billing period of its account |
| BillingPeriods.OneActiveRow | src/daily_agent/services.py:228-265 | an account has at most one active row at any later instant |
| BillingPeriods.OneRowPerPeriod | src/daily_agent/services.py:228-265 | two granted holds draw on one row if and only if they fall into one billing period |
| BillingPeriods.CapIsGrantedOnce | src/daily_agent/services.py:228-265 | on every run, what an account spends in a period stays within the limit set when its row was created, plus overshoot |
| Slots.RequestDays.AdmitGatewayRequests | src/daily_agent/services.py:608-643 | refused exactly when the day would pass the ceiling, which for free plans stops short of the paid reserve |
| Slots.RequestDays.ReturnGatewayRequests | src/daily_agent/services.py:651-663 | the clamped unused slots are returned under the guard |
| Slots.EveryRequestIsCounted | src/daily_agent/services.py:646-648 | a reply's calls are all counted and never more than the slots its message holds, from the gateway's own bound |
| Slots.AttemptsStayWithinTheLimit | src/daily_agent/services.py:608-663 | on every run of messages making the gateway's calls, provider requests made on a day never exceed the slots used, and slots used never exceed the limit |
| Slots.FreeAdmissionsSpareTheReserve | src/daily_agent/services.py:629-643 | a free admission leaves the day at or below limit minus reserve, and is refused if and only if it would not |
| Slots.AdmittedIff | src/daily_agent/services.py:608-643 | a message is admitted if and only if two more requests fit its plan's share of the day, all of it for a paid plan and all but the reserve for a free one, and then counts for two |
| Slots.LeavingKeepsWhatWasMade | src/daily_agent/services.py:651-663 | returning always takes effect and leaves exactly the requests made |
| Message.Session.ExecuteMessage | src/daily_agent/api.py:396-583 | the committed store and the exit of a message, for any fault, any generation and any interference |
| Message.Session.WriteAll | src/daily_agent/api.py:502-540 | the second transaction commits everything or raises without committing |
| Message.Session.GiveUp | src/daily_agent/api.py:497-575 | the handlers' transaction: release, return slots, commit, or nothing |
| Message.Session.PersistCompletedRun | src/daily_agent/services.py:872-905 | run, then outbox event, with the unique constraints |
| ExactlyOnce.ReserveFollows | src/daily_agent/services.py:268-336 | reserving deletes no row and hands out a copy of an open row in an existing window or of a closed one |
| ExactlyOnce.PersistWrites | src/daily_agent/api.py:502-540 | a successful second transaction found no run or event for the request and wrote all of its records |
| ExactlyOnce.ExecuteFollows | src/daily_agent/api.py:396-583 | from a store with at most one run and one event per request, paired, a message leads to such a store, whatever fails, and keeps the slots of every other message counted |
| ExactlyOnce.EveryStoreIsSound | src/daily_agent/api.py:396-583 | after any attempts, faults and interference there is at most one run and one outbox event per request, each with the other |
| ExactlyOnce.NoHoldIsLeft | src/daily_agent/api.py:481-575 | after the reservation committed, a message ends without closing its hold if and only if it failed and its handler did not commit; otherwise the row is closed in the last store it commits |
| ExactlyOnce.ReservedMessagesEndClosed | src/daily_agent/api.py:437-575 | the same from the start of the message |
| ExactlyOnce.AllOrNothing | src/daily_agent/api.py:502-575 | a completed message wrote run, event, task, slots and the end of the hold together; any other wrote no record |
| Charges.CompletedIsCharged | src/daily_agent/api.py:528-540 | a completed message is charged exactly its measured cost and tokens, the estimate as unknown when nothing was measured, or nothing with its use given back when no reply was usable; row, counters and uses, and no others, move accordingly |
| Charges.RaisingIsFree | src/daily_agent/api.py:497-501 | when generating raises, the handler that commits charges nothing, gives the use back and writes no record |
| Charges.FailureIsFree | src/daily_agent/api.py:541-575 | when the write fails, the handler that commits charges nothing, gives the use back and writes no record, in the world it finds |
| Charges.CompletedIsRecorded | src/daily_agent/api.py:502-527 | the run carries account, request, text hash, identifier and reply of this message, and the event, the task and the evidence are those of the run |
| Charges.CompletesIff | src/daily_agent/api.py:502-583 | a message completes if and only if its reply was produced, no fault was raised at any step and no constraint is violated; otherwise what was raised decides its exit |
| Charges.AnswersAreCommittedRuns | src/daily_agent/api.py:408-423 | a replayed or recovered answer is a committed run of the same request and text, a conflict means a committed run with another text, and a replay or early conflict happens if and only if such a run exists |
| Charges.LetInIff | src/daily_agent/api.py:434-488 | a new request gets past its first commit if and only if its hold is granted or already settled and, when live, two more provider requests fit the day's share of its plan |
| Charges.MessageCostsWhatItMeasured | src/daily_agent/api.py:396-583 | from first step to last, with nobody else at the ledger, a completed message adds to window, tokens, period and day what it measured, the estimate, or nothing, and to every other counter nothing |
| ExactlyOnce.RefusalsChangeNothing | src/daily_agent/api.py:407-477 | a message that exits repeated, denied, in flight or over capacity leaves the store as it was, and every other one leaves the row of its hold |
| ExactlyOnce.SlotsKept | src/daily_agent/api.py:481-575 | slots kept are at least the requests made, with equality unless generating raised or nothing could be committed, whatever others commit |
| ExactlyOnce.LiveMessagesKeepWhatTheyMade | src/daily_agent/api.py:450-575 | from the start and with the gateway's own calls, a live message leaves in use exactly the requests it made |
| ExactlyOnce.RepliesAreReplayed | src/daily_agent/api.py:408-424 | once a request has a run, sending it again changes nothing and replays that run, unless the run recorded another text, which is a conflict |
| ExactlyOnce.CompletedThenReplayed | src/daily_agent/api.py:408-583 | a completed message's reply is what every later message with its key and text gets |
| Charges.SentAgain | src/daily_agent/api.py:408-423 | sending a completed request again changes nothing and replays its run if and only if the text is the same, and is a conflict otherwise |
| ExactlyOnce.LoserGetsTheWinnersRun | src/daily_agent/api.py:541-566 | the loser of a race for one request writes no run and answers with the winner's |
| Delivery.DeliveryQueue.FailExhausted | src/daily_agent/worker.py:96-105 | exactly the rows past their lease with all attempts used become failed |
| Delivery.DeliveryQueue.Claim | src/daily_agent/worker.py:51-82 | exactly the claimable candidates are leased and returned |
| Delivery.DeliveryQueue.Finish | src/daily_agent/worker.py:85-93 | a row is delivered exactly when it was still leased |
| Delivery.DeliveryQueue.DeliverAll | src/daily_agent/worker.py:129-144 | the loop finishes exactly the rows that were sent and are still leased, and counts them |
| Delivery.DeliveryQueue.RunOnce | src/daily_agent/worker.py:108-144 | where one undisturbed pass leaves every row, and an exact count |
| Workers.AttemptsCountClaims | src/daily_agent/worker.py:57-82 | attempts count the claims of a row, in any interleaving |
| Workers.ClaimsAreSpaced | src/daily_agent/worker.py:51-82 | two claims of one row carry stamps more than a lease apart, in any interleaving |
| Workers.ExcessIffOvertaken | src/daily_agent/worker.py:57-105 | attempts pass the maximum if and only if some step is a claim of an open row by a pass that had marked before the last allowed claim and is stamped more than a lease after it |
| Workers.AttemptsAreBoundedByOvertakers | src/daily_agent/worker.py:57-105 | in any interleaving each such pass adds at most one claim beyond the maximum |
| Workers.OvertakersAreFixed | src/daily_agent/worker.py:96-105 | once a row has made its last allowed claim no pass joins them |
| Workers.SixClaimsAreMade | src/daily_agent/worker.py:108-144 | a run from the empty queue in which one row is claimed six times |
| Workers.AttemptsAreBounded | src/daily_agent/worker.py:51-105 | when no claim overtakes a marking pass by more than a lease, attempts never pass the maximum |
| Workers.OvertakingExceedsMaximum | src/daily_agent/worker.py:108-144 | a stalled stamp passes the maximum in two claims |
| Workers.ClosedForGood | src/daily_agent/worker.py:51-105 | delivered and failed rows never change again |
| Workers.FinishesCountDeliveries | src/daily_agent/worker.py:85-144 | on every run successful finishes are as many as delivered rows |
| Workers.FinishesAreDeliveries | src/daily_agent/worker.py:85-144 | every delivered row was finished by a worker that claimed and sent it |
| RowHistories.StepsChangeRows | src/daily_agent/worker.py:51-105 | a row changes only by a claim of a waiting or expired row by a pass that marked both tables, a finish of what was sent, or giving up on an expired row after five attempts, and exactly so |
| RowHistories.RemindersAreDue | src/daily_agent/worker.py:127-133 | on every run no reminder is claimed with a stamp before it is due |
| RowHistories.FailedRowsWereGivenUp | src/daily_agent/worker.py:96-105 | a failed row was given up at some step at which its lease was over after five attempts or more |
| RowHistories.DeliveredRowsWereDelivered | src/daily_agent/worker.py:108-144 | a delivered row was won, then delivered, and then finished, by one pass and in that order |
| Workers.ChangesAreBounded | src/daily_agent/worker.py:51-144 | in any interleaving with crashes one row changes at most MAX_ATTEMPTS + 1 times and once more for each overtaking pass; without overtaking at most MAX_ATTEMPTS + 1 times |
| Ed25519.AddOnCurve | src/daily_agent/parakh/ed25519.py:32-38 | addition keeps both extended-coordinate relations, for any modulus and curve constant (section 5.1.4 of RFC 8032) |
| Ed25519.Mul | src/daily_agent/parakh/ed25519.py:41-48 | the double-and-add loop computes its recursive form and never leaves the curve |
| Ed25519.MulIsRepeatedAddition | src/daily_agent/parakh/ed25519.py:41-54 | multiplication by s is s-fold addition wherever addition is associative with a neutral point, up to projective equality |
| Projective.EqualIffSameProjectively | src/daily_agent/parakh/ed25519.py:51-54 | for a prime modulus two points with affine coordinates are equal if and only if a non-zero factor carries x, y and z of one to those of the other |
| Projective.AffineEquality | src/daily_agent/parakh/ed25519.py:51-54 | on affine points, for any modulus, equality is equality of both coordinates modulo it |
| Projective.EqualIsAnEquivalence | src/daily_agent/parakh/ed25519.py:51-54 | equality is an equivalence on points with affine coordinates |
| Projective.AddIsTheEdwardsLaw | src/daily_agent/parakh/ed25519.py:32-38 | the coordinates of a sum satisfy the Edwards addition law (section 5.1.4 of RFC 8032) |
| Projective.AdditionIsComplete | src/daily_agent/parakh/ed25519.py:32-38 | where d is not a square and minus one is, the sum of any two finite curve points is a finite curve point: no denominator vanishes |
| Projective.AddRespectsEqual | src/daily_agent/parakh/ed25519.py:32-38 | equal points have equal sums |
| Projective.NeutralIsNeutral | src/daily_agent/parakh/ed25519.py:41-48 | the start of the multiplication loop is neutral |
| Projective.MulIsRepeatedAdditionOnCurve | src/daily_agent/parakh/ed25519.py:41-48 | on such a curve double-and-add is repeated addition, given only that addition associates |
| Primes.Fermat | src/daily_agent/parakh/ed25519.py:57-94 | the power p - 1 of what a prime p does not divide is one, which is why the power p - 2 inverts |
| PointCodec.LittleEndianRoundTrip | src/daily_agent/parakh/ed25519.py:78-94 | bytes are determined by the number they encode |
| PointCodec.LeastByteFirst | src/daily_agent/parakh/ed25519.py:78-91 | byte i of a string is the digit of weight 256 to the i of the number it encodes |
| PointCodec.RecoveredRoot | src/daily_agent/parakh/ed25519.py:57-75 | every accepted x is a square root of the quotient with the requested parity, and says when it is the modulus itself |
| Decoding.RootIsFoundIff | src/daily_agent/parakh/ed25519.py:57-75 | for a prime modulus 8k + 5 the corrected candidate is a square root if and only if there is one |
| Decoding.RecoversIff | src/daily_agent/parakh/ed25519.py:57-75 | a coordinate is recovered if and only if y is reduced, belongs to a curve point and is not 1 with the sign bit set, and what is recovered is on the curve |
| PointCodec.DecompressedOnCurve | src/daily_agent/parakh/ed25519.py:57-94 | where the denominator is invertible an accepted point satisfies both curve relations |
| PointCodec.CodecRoundTrip | src/daily_agent/parakh/ed25519.py:78-94 | an accepted string is given back unchanged if and only if the recovered coordinate is not the modulus (sections 5.1.2 and 5.1.3 of RFC 8032) |
| PointCodec.MinusOneRecoversModulus | src/daily_agent/parakh/ed25519.py:60-75 | y = p - 1 with the sign bit set is accepted with the coordinate p |
| PointCodec.ModulusRecoveredOnlyAtMinusOne | src/daily_agent/parakh/ed25519.py:60-75 | for a prime modulus the coordinate p is recovered only there |
| PointCodec.StringsRoundTrip | src/daily_agent/parakh/ed25519.py:78-94 | for a prime modulus an accepted string is given back if and only if it is not y = p - 1 with the sign bit set |
| PointCodec.OneStringIsNotGivenBack | src/daily_agent/parakh/ed25519.py:78-94 | that string is accepted and not given back |
| Decoding.DecodesIff | src/daily_agent/parakh/ed25519.py:85-94 | a string decodes if and only if it is 32 bytes of the reduced y of a curve point and not y = 1 with the sign bit, and then to a curve point |
| Decoding.PointsRoundTrip | src/daily_agent/parakh/ed25519.py:78-94 | decoding the encoding of any finite curve point gives an equal point with reduced affine coordinates |
| Decoding.EncodingIsEquality | src/daily_agent/parakh/ed25519.py:78-82 | two finite curve points have the same encoding if and only if they are equal |
| Signatures.SignaturesVerify | src/daily_agent/parakh/ed25519.py:107-133 | what was signed verifies under the public key of the secret, for every secret, message and hash |
| Signatures.VerifiesIff | src/daily_agent/parakh/ed25519.py:122-133 | a signature is accepted if and only if key and first half decode, the second half is below the order and the group equation holds, with multiples as repeated additions, for the hash of first half, key and message |
| Signatures.SecondHalfIsUnique | src/daily_agent/parakh/ed25519.py:122-133 | two accepted signatures of one message under one key with the same first half are the same |
| Router.LadderClimbs | src/daily_agent/gateway/router.py:68-80 | the ladder of allowed classes climbs strictly to the highest allowed class |
| Router.StartIsAllowed | src/daily_agent/gateway/router.py:72-80 | a start class exists if and only if a class at or above the floor is allowed, and is such a class |
| Router.EscalationRaisesStart | src/daily_agent/gateway/router.py:79-80 | escalating never lowers the start, and keeps it if and only if it is already the highest allowed class |
| Router.PlainStartIsCheapest | src/daily_agent/gateway/router.py:72-80 | an easy task that nobody escalated starts at the cheapest allowed class |
| Router.HardTasksStartHigher | src/daily_agent/gateway/router.py:72-80 | code, maths and summaries start at the next allowed class above an easy task, or at the same when there is none |
| Router.EscalatingStartsHigher | src/daily_agent/gateway/router.py:72-80 | an escalated request starts at the next allowed class, or at the same when there is none |
| Router.ActionsIdentify | src/daily_agent/gateway/registry.py:39-42 | an action name determines its registry entry |
| Router.EligibleModelsAre | src/daily_agent/gateway/router.py:83-110 | the list holds exactly the usable models that are not excluded, ascending by class, score and name |
| Router.UsableMeans | src/daily_agent/gateway/router.py:97-108 | a usable model is available, of an allowed class not cheaper than the start, at least as large as prompt and output together, and structured when that is asked |
| Router.OrderOfRegistryIsIrrelevant | src/daily_agent/gateway/router.py:97-110 | the list is the same for every order of the registry |
| Health.HealthTracker.RecordFailure | src/daily_agent/gateway/health.py:70-95 | the new breaker, cooldown and disabled state of each kind of failure |
| Health.HealthTracker.BeginCall | src/daily_agent/gateway/health.py:59-64 | marks a probe exactly when the breaker is open |
| Health.HealthTracker.RecordSuccess | src/daily_agent/gateway/health.py:66-68 | closes the breaker |
| Health.FailuresAgree | src/daily_agent/gateway/health.py:86-90 | the failure count is the number of counting failures since the last success in the whole log |
| Health.OpeningAgrees | src/daily_agent/gateway/health.py:86-90 | the breaker is open exactly when the log holds an opening failure since the last success, and since the latest such |
| Health.ProbingAgrees | src/daily_agent/gateway/health.py:59-95 | the probe flag is set exactly when a call began while open and no outcome but a non-zero price followed |
| Health.CooldownAgrees | src/daily_agent/gateway/health.py:76-82 | the cooldown is that of the latest rate limit, capped |
| Health.DisabledAgrees | src/daily_agent/gateway/health.py:73-75 | a model is disabled exactly when the log holds a non-zero price for it |
| Health.AvailabilityIsTheLogs | src/daily_agent/gateway/health.py:44-95 | after any events, availability equals what the whole log says |
| Gateway.Service.Try | src/daily_agent/gateway/service.py:199-228 | one attempt: reply or reason, one logged call, and what the tracker is told |
| Gateway.Service.Run | src/daily_agent/gateway/service.py:139-197 | the result and the tracker's state after a whole request, with availability read at three times |
| Gateway.FirstIsChosen | src/daily_agent/gateway/service.py:162-171 | the first model is the least usable one, and there is none exactly when no model is usable |
| Gateway.SecondIsChosen | src/daily_agent/gateway/service.py:176-193 | the second model is the least that a retry may use, another provider first; none exactly when no model may be |
| Gateway.ChoicesGoBefore | src/daily_agent/gateway/router.py:109-110 | the models called come before all others that may be: the cheaper class, then the higher score, then the lexicographically earlier name, and on a retry another provider before all that |
| Gateway.GenerateHonours | src/daily_agent/gateway/service.py:139-197 | one call per attempt, at most two, success exactly when the last call was accepted, both choices as promised, nothing usable left untried; text, action and reason are those of the last model called: its text unchanged when acceptable, otherwise the refusal that text earns or the kind of error raised |
| Gateway.TrackerHearsEveryAttempt | src/daily_agent/gateway/service.py:199-228 | after a request the tracker is in the state of the old log followed by exactly two events for each call, in order |
| Gateway.LooksFollowTheLog | src/daily_agent/gateway/service.py:131-193 | each look at the registry finds available exactly what the whole log says at that time, with the first attempt's events included for a retry |
| Gateway.CallsStayInBounds | src/daily_agent/gateway/service.py:139-197 | every call goes to a registered model of an allowed class at or above the start whose context fits |
| Gateway.RetriesEscalate | src/daily_agent/gateway/service.py:176-197 | never the same model twice; a refused reply climbs a class whenever a higher usable model is available; a provider error moves to another provider whenever one is |
| Gateway.FirstChoiceIsUnique | src/daily_agent/gateway/router.py:109-110 | the first choice is unique |
| Gateway.RegistryOrderIsIrrelevant | src/daily_agent/gateway/service.py:139-197 | the whole result is the same for every order of the registry |
| RateLimiter.SlidingWindowLimiter.Check | src/daily_agent/ratelimit.py:32-47 | answers as a limiter that keeps every admission for ever, eviction of idle keys included |
| RateLimiter.SlidingWindowLimiter.DropIdle | src/daily_agent/ratelimit.py:42-46 | forgets exactly keys whose hits have all expired |
| RateLimiter.KeptIsUnexpired | src/daily_agent/ratelimit.py:37-38 | after popping, the kept hits are exactly the unexpired admissions |
| RateLimiter.AdmissionsAreSpaced | src/daily_agent/ratelimit.py:32-47 | any limit + 1 consecutive admissions of a key span at least a window |
| RateLimiter.AtMostLimitPerWindow | src/daily_agent/ratelimit.py:32-47 | no key is admitted more than limit times in any window-length interval |
| RateLimiter.RefusalIsExact | src/daily_agent/ratelimit.py:39-40 | after a refusal, checks are refused until the oldest unexpired hit expires and admitted from then on; the seconds returned are enough and the fewest, or one |
| RateLimiter.WaitingSucceeds | src/daily_agent/ratelimit.py:39-40 | waiting the seconds returned is enough |
| History.TrimHistory | src/daily_agent/services.py:732-747 | returns the longest suffix of turns that fits the byte budget |
| History.LongestFitIsUnique | src/daily_agent/services.py:732-747 | that suffix is unique |
| History.NothingKeptIff | src/daily_agent/services.py:741-744 | nothing is kept if and only if the newest turn does not fit |
| History.PromptIsBudgeted | src/daily_agent/gateway/service.py:58-69 | no moment makes the system prompt longer than the one it is budgeted by |
| History.PromptFitsThePlan | src/daily_agent/gateway/service.py:151-161 | when the message fits, prompt tokens stay within the plan's input tokens, and the token hold within input plus output |
| History.AdaptersAccept | src/daily_agent/gateway/adapters.py:35-52 | no request built under the guards breaks the message-count, prompt-size or output-token bounds of either adapter |
| History.RequestsAreAlwaysAccepted | src/daily_agent/services.py:754-804 | the same with the program's own system prompt at any moment |
| History.TurnsAreDroppedOnlyForRoom | src/daily_agent/services.py:732-747 | what is kept fits, beside the longest prompt and the message, four times the input tokens and 40,000 bytes, and one older turn would not |
| History.CharBytesAreFewest | src/daily_agent/services.py:724-725 | a character counts the fewest bytes whose UTF-8 form holds it |
| History.ValidIff | src/daily_agent/gateway/adapters.py:35-52 | an adapter sends a request if and only if its output tokens, messages and characters are within bounds |
| PolicySelect.FillScores | src/daily_agent/parakh/bundle.py:94-103 | the loop scores exactly the eligible known actions |
| PolicySelect.ScoreIsABound | src/daily_agent/parakh/bundle.py:94-103 | the mean is the inner product of theta and features, and the variance the quadratic form of the matrix, summed entry by entry |
| PolicySelect.UpperBoundIs | src/daily_agent/parakh/bundle.py:102 | the allowance is alpha times the root of the variance, a negative one counting as zero |
| PolicySelect.OneIsGreedy | src/daily_agent/parakh/bundle.py:112-113 | as soon as anything is scored exactly one action is greedy |
| PolicySelect.Probabilities | src/daily_agent/parakh/bundle.py:105-121 | the greedy action is the least name among the best scores, and the distribution is the one for it |
| PolicySelect.DistributionSumsToOne | src/daily_agent/parakh/bundle.py:110-121 | the probabilities sum to one for every score map and epsilon |
| PolicySelect.ProbabilityBounds | src/daily_agent/parakh/bundle.py:110-121 | a probability is positive if and only if there is exploration or the action is greedy |
| PolicySelect.Choose | src/daily_agent/parakh/bundle.py:139-145 | the loop picks the action whose interval holds the draw, or the last one beyond the total |
| PolicySelect.IntervalsAreExact | src/daily_agent/parakh/bundle.py:139-145 | each action's draws are one interval of length exactly its probability, disjoint from the others |
| PolicySelect.EveryDrawSelects | src/daily_agent/parakh/bundle.py:139-145 | every draw below the total lies in some interval |
| PolicySelect.Select | src/daily_agent/parakh/bundle.py:136-155 | the decision for any draw, its logged probability and its exploration flag |
| PolicySelect.LoggedProbabilityIsLegal | src/daily_agent/models.py:326-329 | a chosen action's logged probability is always in (0, 1] |
| PolicySelect.ExplorationFlag | src/daily_agent/parakh/bundle.py:146-151 | the flag compares with the greedy action if and only if epsilon is below 1 or the greedy action is the first name |
| PolicySelect.Decide | src/daily_agent/parakh/bundle.py:123-155 | from eligible actions and a draw in [0, 1) to an eligible known action with its exact probability in (0, 1], or nothing when features or candidates are missing |
| PolicySelect.EligibleIsASet | src/daily_agent/parakh/bundle.py:96 | order and repetition of eligible actions do not matter |
| Billing.Accounts.BillingEvent | src/daily_agent/api.py:766-808 | the state and answer for each event: missing account, conflict, duplicate, stale or applied |
| Billing.Accounts.RedeemAccessCode | src/daily_agent/api.py:631-642 | the state after a valid code |
| Billing.Accounts.UpdateActiveTheme | src/daily_agent/api.py:266-289 | the theme is chosen exactly when its tier is unlocked; a refusal changes nothing |
| Billing.Accounts.SyncAccountProgression | src/daily_agent/services.py:164-176 | every user of the account, and no other, is brought in step |
| Billing.UsersStayInStep | src/daily_agent/services.py:152-176 | across events, codes and theme changes, 1 <= theme <= unlocked tier <= 4 and the tier is the effective plan's |
| Billing.BillDoes | src/daily_agent/api.py:766-808 | the answer to an event and all that it changes: recorded whenever it is new, applied if and only if its version is newer, with every user of the account following and nobody else |
| Billing.RedeemDoes | src/daily_agent/api.py:631-642 | a code changes something if and only if its tier is above what the account unlocks, and then the plan alone |
| Billing.ThemeIsChosenIff | src/daily_agent/api.py:266-289 | a theme is chosen if and only if its tier is unlocked by the account's active plan, by that user alone |
| Billing.CodesNeverDowngrade | src/daily_agent/api.py:607-642 | a code never lowers the effective plan and raises it if and only if it outranks it and the subscription is active |
| Billing.DeliveriesKeepTheLatest | src/daily_agent/api.py:790-803 | after any deliveries a subscription is what its greatest version above the initial one says |
| Billing.DeliveriesConverge | src/daily_agent/api.py:743-808 | any two delivery orders with redeliveries end in the same plan, status and version |
| Billing.RedeliveryIsIgnored | src/daily_agent/api.py:770-782 | a redelivery changes nothing and is told apart from a conflicting payload |
| Billing.ThemeIsTheLowest | src/daily_agent/services.py:164-176 | after any deliveries a user's theme is the lower of the starting one and the lowest tier passed through |
| Billing.ThemesAgreeIff | src/daily_agent/services.py:164-176 | two delivery orders leave the same theme if and only if those minima agree |
| Billing.UnlockedTiersConverge | src/daily_agent/services.py:164-176 | two delivery orders leave the same unlocked tier |
| Billing.ThemesMayDiffer | src/daily_agent/services.py:164-176 | a transient cancellation resets the theme, so themes need not converge |
| Bundles.BundleStore.ReceiveBundle | src/daily_agent/parakh/receiver.py:88-134 | receipt, idempotence and refusals |
| Bundles.BundleStore.TransitionTo | src/daily_agent/parakh/receiver.py:152-186 | every refusal in order, and the states and events of a move |
| Bundles.BundleStore.RetireOthers | src/daily_agent/parakh/receiver.py:171-180 | the loop retires exactly the other bundles in shadow, each with its event |
| Bundles.ReceivingIsIdempotent | src/daily_agent/parakh/receiver.py:97-103 | receiving a version again changes nothing and is refused when its contents differ |
| Bundles.ReceivedIff | src/daily_agent/parakh/receiver.py:88-134 | a row appears if and only if an operator brings a new version that passes verification, and no receipt changes another row |
| Bundles.ShadowWasVerified | src/daily_agent/parakh/receiver.py:88-186 | a bundle in shadow was verified when it was received, when it was staged and when it was put in shadow, in that order, each time at an operator's request |
| Bundles.AtMostOneShadow | src/daily_agent/parakh/receiver.py:152-186 | in every reachable store at most one bundle is in shadow |
| Bundles.TrailsReplay | src/daily_agent/parakh/receiver.py:32-37 | a bundle's events replay as a legal path to its current state, in at most four events |
| Bundles.RecordsStay | src/daily_agent/parakh/receiver.py:88-186 | a version's checksum never changes, its events are only added to and its state only advances |
| Bundles.RefusalsChangeNothing | src/daily_agent/parakh/receiver.py:152-186 | a transition succeeds exactly under its five conditions, moves one listed step with one event, retires the bundles it displaces from shadow and touches no other; otherwise it changes nothing, and live traffic is never reached |

## Left out

- Calendar.InstantsTile: years outside 1..9999, where the program raises, are not told apart.
- Budget.Ledger.ReserveBudget: the program reads the clock several times in one transaction; the model reads it once.
- Budget.Ledger.EnsureUsagePeriod: the retry after a concurrent insert, and calendar-keyed periods of accounts without an anchor.
- Uses.RobbedRunGoesNegative: a rollback with no transaction begun does not make the session read rows again.
- Budget.Ledger.SettleBudget: rows without a usage period, and the cost-ledger rows it adds.
- Message.Session.ExecuteMessage: the reservation, slot and second transactions are each atomic; a fault before the second transaction has begun would leave the session's copy unrefreshed, where the model reads the row again.
- Message.Session.ExecuteMessage: history, regeneration links and routing content do not affect the state and are opaque.
- ExactlyOnce.SlotsKept: two message runs with one run identifier, which the program draws at random.
- Workers.AttemptsAreBounded: database clocks and isolation levels; each guarded UPDATE is one atomic step.
- Signatures.SignaturesVerify: associativity of addition, the order of the base point and the primality of the modulus are hypotheses, not proved here.
- Ed25519.MulIsRepeatedAddition: its other laws are hypotheses too; `Projective.MulIsRepeatedAdditionOnCurve` proves all but associativity.
- Router.EligibleModelsAre: the explicit class floor, an argument no caller passes.
- Delivery.DeliveryQueue.RunOnce: other workers acting during the pass, which `Workers` covers.
- Gateway.Service.Run: all models are judged available at one time per look at the registry; a provider raising anything but a provider error is covered by `Message`, not here.
- RateLimiter.SlidingWindowLimiter.Check: clock readings are assumed not to decrease between checks, though the program reads its clock before taking its lock.
- PolicySelect.FillScores: exact real arithmetic instead of floating point, the square root an arbitrary function, and computed features taken as given.
- Billing.Accounts.BillingEvent: signatures, JSON and the race of two inserts of one event; each event is one atomic step.
- Bundles.BundleStore.ReceiveBundle: files, copying, signatures and checksums; verification succeeds or fails.
- Hashes stand as opaque identifiers; nothing is claimed about collisions or forgery.
- Expanding an Ed25519 secret into its scalar and prefix, which are parameters here.
- Task classification, plan prices, measured costs and measured tokens, which are single expressions.
- HTTP, authentication, persistence mechanics, configuration, telemetry and user interfaces.
