# Verified model of the Sivan escrow store

This project models the escrow store of the Sivan backend, the arithmetic and the protocols around it, and proves
what holds of them over every input, every run and every interleaving. `dafny verify dfyconfig.toml` checks it.

## What is modelled

**The escrow store.** `EscrowStore` is a class over four shared tables (escrows, transactions, ledger, events), with one
method per store operation, updating the tables in place. Each method is proved against `Lifecycle.Apply`, which says
what the operation does to the rows of one escrow, and `Effects` says of every operation, guard by guard and column by
column, what that comes to, with every status, figure and account written out; the class invariant says that every
escrow's rows satisfy `Invariants.Inv` and that a payment reference of one escrow is on no row of another. `Runs`,
`Releases`, `Conservation`, `Reconciliation` and `Expiry` then reason about all runs of these operations from the
creation of an escrow, and `Traces` shows, on the four shared tables with their updates by reference, that calls on
other escrows in between do not matter. `EscrowService` adds the reconciliation of a provider's transaction, with the
refresh that goes before it, and `Redelivery` says what a transaction does that is reported more than once.

**Money.** `Quote` is the payout quote with its three fee payers and its two rounding grains. `EventLog` defines what an
event log replays to on its own: a status, a received amount and a list of ledger postings. `Conservation` reads the
balance of the liability account off the log.

**Around the store.** `AuditTrail` is the hash chain and its verifier. `EditDistance` and `NameMatch` are the matrix
loop and the account-name score. `Json` is what `JSON.stringify` prints. `Mutex` and `LimitReview` are the two
concurrency protocols, as interleaved steps. `Csv`, `IpAllowlist` and `Monitoring` are three small cores: the
reconciliation export, the CIDR match and the alert limiter.

## Assumptions

- Money is exact (`real`). The platform fee is a parameter, and the same throughout a run. Times are integers; one call
  has one `now`.
- Payment and payout references are non-empty. No method of the store requires more than its invariant. The invariant is
  promised afterwards when the call is `Tables.Permitted`: a payment reference that is attached is on no other escrow's
  rows, a payout reference is no other escrow's payment reference (two escrows may share a payout reference), and the
  callers keep the discipline of `Lifecycle.Disciplined`: `attachPayment` is called with the status `PENDING_PAYMENT` or
  none (src/services/paymentService.ts:317 and :365, src/routes/escrows.ts:295, :334 and :429) and
  `markPaymentReminderSent` while the escrow is pending payment (src/services/escrowService.ts:327).
  `Invariants.ReminderKeepsReplay` shows that the last is exactly what is needed.
- A funding or a review whose reference is on several escrows' rows updates all of them; the contracts of the two
  methods say so (`Tables.FundIn`, `Tables.ReviewIn`), and say what happens to one escrow when the reference is its own.
- Funding calls come from a reconciliation, from the sandbox route with the quoted total, or from the balance route with
  the bare amount (`Reconciliation.Gated`); only the two theorems about the tolerance use it.
- SHA-256 is any injective function that prints no `|` and never the empty string or the genesis value. The events of
  one escrow have strictly increasing times, so ordering by time is ordering by insertion.
- The newest row of a reference is the one inserted last. The code orders by update time; an update reaches all rows of
  a reference and gives them one status, so both orders find the same status.
- Every operation is one atomic step. A call that throws in one of its checks has written nothing.

## What came out

- A payment by a reference that leads to the escrow is booked in ten of the fifteen statuses, of which eight occur, and
  in no other (`Effects.PaymentEnds`, `Conservation.PaymentIsBookedExactlyWhen`, `Redelivery.FirstPaymentIsBooked`).
- The log is the whole truth: it replays to the status, the received amount and the ledger (`Runs.EventSourcing`).
- The quote drifts by more than minus one rounding unit and at most one. It is exact if and only if the fee is a whole
  number of units and the quote does not straddle: a USDC quote straddles when the seller's figure is below zero, the
  buyer's is not, and both end in half a unit, because `toFixed` rounds halves of negative numbers the other way; it is
  then off by exactly one unit (`Quote.QuoteDrift`; `Quote.UncoveredQuoteDrifts` is an input).
- The store refuses its own quote when rounding lifts the seller's net above the amount, as for a Naira amount of 1000.6
  whose fee the buyer pays (`Releases.QuoteIsAcceptedExactlyWhen`, `Releases.FractionalAmountIsRefused`); by then the
  route has asked for the payout.
- Every manual approval of a Naira escrow rests on a payment of its own, later than the settlement before it
  (`Runs.NairaReleaseHistory`, `Runs.EveryApprovalHasItsPayment`).
- Nothing remembers a transaction. Reported again after any commands, a confirmed payment changes nothing if and only if
  its instruction is still live and the status is on the skip list; if the instruction is live and the status is not on
  the list, it funds the escrow once more (`Redelivery.SecondReportExactlyWhen`). The list omits DELIVERED, so a payment
  reported again after delivery is booked twice (`Redelivery.DeliveredIsFundedTwice`); and a late payment that was put
  before a human is funded by the provider's retry (`Redelivery.ReviewedIsFundedByRetryExactlyWhen`).
- Once paid and released, an escrow leaves the whole payment on the liability account when the buyer released it
  autonomously, which books nothing (`Conservation.EachReleaseLeaves`).
- A manual release leaves on the liability account exactly what was paid beyond the quoted total. A payment of the bare
  amount, as the balance route makes it, therefore overdraws the account by the buyer's share of the fee
  (`Conservation.QuotedReleaseLeaves`). A dispute release pays the bare amount and leaves the buyer's share behind.
- A refund pays back the amount last reported, so a payment review with another amount between payment and refund leaves
  the difference behind (`Conservation.RefundBalance`, `Conservation.ReviewedRefundPays`).
- A Naira escrow at or above the high-value threshold (500000 unless another is given) is never approved for a manual
  payout: its release request goes to review, and no approval leads out of there
  (`Releases.HighValueNairaIsNeverApproved`).
- `CREATED`, `FUNDED` and `FAILED` are declared but never entered (`Runs.UnreachableStatuses`).
- The hashed payload pins an event's fields if and only if at most one of them may contain `|`
  (`AuditTrail.PayloadIsAmbiguous`). What the store writes is pinned all the same, although reason and metadata may both
  contain it, because the metadata is JSON text: the last hash pins every column of every row
  (`AuditTrail.LastHashPinsEveryRow`), and through it the value the metadata was printed from
  (`Json.StringifyIsInjective`).
- A `BEGIN` that fails stands before the `try` that would release the mutex: nobody gets in any more
  (`Mutex.NoLostTurn`, `Mutex.FailedBeginIsForGood`).
- A limit review without a client request id can create two escrows (`LimitReview.OneEscrowExactlyWithRequestId`), and
  an approved review can be overwritten by a rejection that read it before (`LimitReview.ApprovalIsFinalExactlyWhen`).
- The two cent-rounding tests of `amountsMatch` and the shortcut and floors of the name score never decide anything
  (`Reconciliation.CentTestsAreImplied`, `NameMatch.ScoreIsPlainAverage`).

## Model

| member | source | states |
|---|---|---|
| Runs.EventSourcing | src/services/escrowStore.ts:2388-2422 | In every run, replaying the log gives the escrow's status, its received amount and its ledger, and each status-bearing event starts from the status in which the preceding one ended. |
| Runs.NairaReleaseHistory | src/services/escrowStore.ts:2159-2203 | In every run, a Naira manual release comes after a release request, which comes after a completion or delivery, which comes after a verified payment; nothing has been settled since that payment, and its funding entry is in the ledger with its amount and reference. |
| Runs.EveryApprovalHasItsPayment | src/services/escrowStore.ts:1685-1719 | In every run of a Naira escrow, at every point of its log, there have been at least as many verified payments as manual approvals, and one more while the escrow is between a payment and an approval. |
| Runs.UnreachableStatuses | src/services/escrowStore.ts:1685-1719 | No run ever enters CREATED, FUNDED or FAILED. |
| Runs.LedgerTalliesWithLog | src/services/escrowStore.ts:2287-2367 | In every run: funding entries, verified payments and entries into IN_PROGRESS are equally many; release entries match manual and dispute releases; refund entries match dispute refunds; fee entries match the manual releases with a fee. |
| Runs.ReleasedIsRecorded | src/services/escrowStore.ts:2250-2269 | In every run, for every currency and path, a released escrow has a payout reference, a release time and a releaser, and no continuation of the run clears any of them. |
| Runs.PendingRowsAreActive | src/services/escrowStore.ts:2443-2453 | In every run, every pending funding row carries the escrow's active payment reference. |
| Invariants.ReminderKeepsReplay | src/services/escrowStore.ts:1827-1853 | Recording a reminder, which writes PENDING_PAYMENT into the log unconditionally, keeps the log in step with the escrow exactly when the escrow is pending payment. |
| Effects.CreationWrites | src/services/escrowStore.ts:1324-1393 | The whole row of a new escrow and its one event. |
| Effects.InstructionSetsRow | src/services/escrowStore.ts:1551-1651 | Which columns an instruction sets: a given funding deadline replaces the stored one; its own deadline is the one given, else the one in its metadata; a regeneration is counted. |
| Effects.InstructionBooks | src/services/escrowStore.ts:1551-1651 | The rows of another active reference expire, one pending row and one event are added, no money moves. |
| Effects.AcceptanceEnds | src/services/escrowStore.ts:1653-1682 | An acceptance is refused exactly to somebody who was not invited, and changes something exactly while the escrow waits for its seller. |
| Effects.PaymentEnds | src/services/escrowStore.ts:1685-1718 | A payment by a reference that leads to the escrow is booked in each of ten named statuses: in progress, one event, one funding entry of the reported amount, rows a success; in FUNDED, IN_PROGRESS, COMPLETED, PENDING_RELEASE and RELEASED, and by any other reference, nothing changes. |
| Effects.StatusesThatAwait | src/services/escrowStore.ts:1689 | The statuses that take a payment, of which the statements about payments speak, are these ten. |
| Effects.CarriesIsLeadsTo | src/services/escrowStore.ts:1936-1964 | A reference leads to an escrow exactly when it is its active one or on one of its rows. |
| Effects.ReviewWrites | src/services/escrowStore.ts:1855-1934 | A review keeps what was received before if it reports nothing, sets status, flags and time, and moves no money. |
| Effects.ReminderWrites | src/services/escrowStore.ts:1827-1853 | A reminder sets one column and logs one event, from any status. |
| Effects.SweepEnds | src/services/escrowStore.ts:1721-1784 | A sweep expires the escrow exactly when it is pending payment and its funding deadline is a time not after now; else drops the active reference exactly when the newest pending row has a payload and its deadline (active, else stated, else creation plus 1000 times the seconds) is not after now; else changes nothing. |
| Effects.ExpiryWrites | src/services/escrowStore.ts:1728-1747 | An expired escrow keeps its reference, whose rows expire with it. |
| Effects.LapseWrites | src/services/escrowStore.ts:1779-1822 | A lapsed instruction leaves a pending escrow without a reference; its rows store the deadline. |
| Effects.ReleaseRequestEnds | src/services/escrowStore.ts:1994-2056 | Exactly when a release request ends in RELEASED, REVIEW_REQUIRED, PENDING_RELEASE or in which error, against the given Naira bound or 500000, and for other currencies the given USDC bound or 2500. |
| Effects.ReleaseRequestWrites | src/services/escrowStore.ts:2011-2053 | The row and the event of each of the three. |
| Effects.CompletionEnds | src/services/escrowStore.ts:2058-2076 | Exactly when a completion goes through, or in which error it ends, and what it leaves. |
| Effects.DeliveryEnds | src/services/escrowStore.ts:2079-2085 | A delivery goes through exactly from FUNDED, IN_PROGRESS or DELIVERED. |
| Effects.DeliveryWrites | src/services/escrowStore.ts:2086-2122 | It opens an inspection of the given number of days of 86400000 milliseconds. |
| Effects.CancellationEnds | src/services/escrowStore.ts:2129-2141 | Exactly when a cancellation goes through, changes nothing, or in which error it ends. |
| Effects.CancellationWrites | src/services/escrowStore.ts:2142-2153 | What it leaves; the rows of the active reference are cancelled. |
| Effects.ApprovalEnds | src/services/escrowStore.ts:2159-2188 | Exactly when an approval goes through, and which error is named first. |
| Effects.ApprovalWrites | src/services/escrowStore.ts:2166-2245 | Event, transaction row and entries have the fee given, or 0, and the net given, else the gross, else the amount, none below zero; the fee has an entry exactly when it is positive. |
| Effects.ApprovalSetsRow | src/services/escrowStore.ts:2250-2269 | The row of an approved release records the payout as the call gives it. |
| Effects.PayoutPendingWrites | src/routes/admin.ts:249-272 | An unfinished payout adds a row and a remark and nothing else. |
| Effects.RemarkWrites | src/services/escrowStore.ts:2455-2533 | A remark adds one event and nothing else. |
| Effects.DisputeEnds | src/services/escrowStore.ts:2271-2285 | Exactly who may open a dispute, from any status, and what it leaves. |
| Effects.ResolutionEnds | src/services/escrowStore.ts:2287-2316 | Exactly when a dispute is decided, or in which error that ends, and where each outcome leads. |
| Effects.ResolutionPaysSeller | src/services/escrowStore.ts:2318-2341 | A decision for the seller books the bare amount, under the given reference or one made of the id. |
| Effects.ResolutionPaysBuyer | src/services/escrowStore.ts:2343-2364 | A decision for the buyer books what was last received, or the amount if nothing was. |
| Effects.ResolutionPaysNobody | src/services/escrowStore.ts:2287-2316 | The two other outcomes move no money. |
| Releases.ReleasedExactlyWhen | src/services/escrowStore.ts:1994-2056 | Over all operations, an escrow becomes released exactly by its buyer releasing a finished USDC escrow below the given bound, or 2500, by an approval of matching amounts (for Naira: from PENDING_RELEASE, with a verified, well-matched, unshared payout account), or by a dispute decided for the seller. |
| Releases.TakenBackExactlyWhen | src/services/escrowStore.ts:2271-2285 | Over all operations, a released escrow leaves its release exactly by a new payment instruction, a payment review, or a dispute opened by an admin or a participant. |
| Releases.ReleasedInRunExactlyWhen | src/services/escrowStore.ts:2388-2422 | In every run an escrow is released at the end exactly when one of the releasing commands met its conditions on an unreleased escrow and no command after it was one of those that take a release back. |
| Releases.QuoteIsAcceptedExactlyWhen | src/routes/admin.ts:288-295 | The store accepts a release with the escrow's own quote exactly when the guards hold, the amount is not negative, and the seller's unrounded net is less than half a unit above the amount's whole units. |
| Releases.FractionalAmountIsRefused | src/routes/admin.ts:288-295 | A Naira amount of 1000.6 whose fee the buyer pays is quoted a net of 1001, and approving the quote fails with `NetExceedsGross`, at any fee. |
| Releases.ReleaseNeverExceedsAmount | src/services/escrowStore.ts:2159-2247 | In every run, no release entry is larger than the escrow's amount. |
| Releases.HighValueNairaIsNeverApproved | src/services/escrowStore.ts:2035-2053 | In every run under fixed thresholds, a Naira escrow of at least the given Naira threshold, or 500000, never waits for and never gets a manual approval. |
| Quote.QuoteDrift | src/services/paymentService.ts:241-288 | For every amount, fee, fee payer and currency, the buyer's total less the seller's net and the fee is above minus one rounding unit and at most one; zero exactly when the fee is a whole number of units and the unrounded figures do not straddle zero on half units, and one exactly when they do. |
| Quote.UncoveredQuoteDrifts | src/services/paymentService.ts:269-275 | A USDC quote, of figures that a floating-point number holds exactly, that straddles and is off by one unit. |
| Quote.StraddlingPaysNegative | src/services/paymentService.ts:269-275 | A straddling quote pays the seller less than nothing and has a fee above the amount; so no other quote straddles. |
| Quote.QuotedNetFits | src/services/paymentService.ts:269-275 | The quoted net is at most the amount exactly when the amount is not negative and the unrounded net is less than half a unit above the amount's whole units. |
| Quote.SplitIsFair | src/services/paymentService.ts:261-267 | The two parts into which a split divides the fee differ by at most one rounding unit, for every amount and fee. |
| Quote.QuotedSplitIsFair | src/services/paymentService.ts:261-275 | After the final rounding too, as long as the amount is a whole number of units. |
| Quote.WholeQuote | src/services/paymentService.ts:255-275 | With whole-unit amount and fee the final rounding changes nothing, and the amount lies between the seller's net and the buyer's total. |
| Quote.QuoteFigures | src/services/paymentService.ts:241-288 | For each fee payer, the total and the net are the amount with the payer's share of the fee, rounded to the nearest unit, halves up, or away from zero where `toFixed` prints. |
| Conservation.BalanceIsFlow | src/services/escrowStore.ts:2715-2758 | After every run the liability account holds what the log says came in less what it says went out. |
| Conservation.PaymentIsBookedExactlyWhen | src/services/escrowStore.ts:1685-1718 | In every run a payment of the escrow is booked, and adds its amount to the liability account, in each of eight named statuses, and changes nothing in the other four that occur. |
| Conservation.QuotedReleaseDrains | src/services/escrowStore.ts:2205-2245 | A payment command with the quoted total, an approval command called with the figures of the quote, and no other money in the log: the escrow leaves less than one unit on the liability account, and nothing exactly when the fee is a whole number of units, for every fee payer and currency; if the quote pays the seller less than nothing, the store books zero and the total less the fee is left. |
| Conservation.QuotedReleaseLeaves | src/routes/escrows.ts:433-439 | The same for a payment command of any amount, of what was paid beyond the quoted total. |
| Conservation.DisputeReleaseLeavesBuyerFee | src/services/escrowStore.ts:2318-2341 | Paid once and released by a dispute, it leaves what was paid beyond the bare amount. |
| Conservation.EachReleaseLeaves | src/services/escrowStore.ts:2011-2021 | In every run, once paid and once released with no other money event: an autonomous USDC release leaves the whole payment, an approval the payment less the net and the fee, a dispute the payment less the bare amount; there is no fourth way. |
| Conservation.RefundBalance | src/services/escrowStore.ts:2343-2364 | Paid once and refunded by a dispute, it leaves the payment less the amount last reported as received. |
| Conservation.RefundDrains | src/services/escrowStore.ts:2343-2364 | With no reviewed amount between payment and refund, it leaves nothing. |
| Conservation.ReviewedRefundPays | src/services/escrowStore.ts:1855-1901 | From every state, a review that reports an amount, followed by a refunded dispute, takes exactly that amount off the liability account. |
| Reconciliation.CentTestsAreImplied | src/services/escrowService.ts:1483-1492 | `amountsMatch` is the tolerance test alone: within the larger of 5% of the expected amount and 500, of the expected or the base amount. |
| Reconciliation.MatchesExactlyWhen | src/services/escrowService.ts:1483-1492 | An amount matches exactly when it is at most 500, or a twentieth of the expected amount, away from the expected or the base amount. |
| Reconciliation.ReconciliationEnds | src/services/escrowService.ts:1499-1594 | A reported transaction is put before a human under the first of four flags that applies, with its amount and status on the row, and otherwise is a payment of the amount reported; the expected amount is the quoted total. |
| Reconciliation.StoredIsNewest | src/services/escrowStore.ts:1966-1974 | The stored status of a reference is that of its newest row. |
| Reconciliation.FundsExactlyWhen | src/services/escrowStore.ts:1685-1718 | On the books of an escrow, a provider transaction adds one funding entry and puts the escrow in progress exactly when its instruction is live, it is confirmed and within tolerance, the escrow is not on the skip list and carries the reference; the entry has the transaction's amount and reference, and otherwise the ledger is unchanged. |
| EscrowService.SettlementFundsExactlyWhen | src/services/escrowService.ts:1499-1594 | The same for a whole reconciliation in the shared tables, on the books it finds after its refresh; no other escrow changes. |
| EscrowService.RedeliveryChangesNothing | src/services/escrowService.ts:1589-1593 | Once a transaction has funded the escrow, reconciling it again before any other command, after any refresh, changes nothing and does not fail. |
| Redelivery.FirstPaymentIsBooked | src/services/escrowStore.ts:1685-1718 | In every run that ends pending payment under an active reference, a payment by it puts the escrow in progress with one event, one funding entry and its amount on the liability account, and a row of the reference is a success. |
| Redelivery.SecondReportExactlyWhen | src/services/escrowStore.ts:1685-1689 | In every run: a confirmed payment is reported, any commands follow, and it is reconciled again after any refresh. That changes nothing if and only if the instruction is live and the status is on the skip list; it funds the escrow (again) if and only if the instruction is live and the status is not on the list; otherwise it is a review that leaves the ledger. |
| Redelivery.DeliveredIsFundedTwice | src/services/escrowStore.ts:1689 | A payment that funds an escrow and is reported again after delivery adds a second funding entry of the same amount and puts the escrow back in progress. |
| Redelivery.ReviewedIsFundedByRetryExactlyWhen | src/services/escrowStore.ts:1889-1898 | After a report that went to review, the next report of the same transaction, after any refresh, funds the escrow if and only if it is confirmed and within tolerance, carried, and no other instruction is active. |
| Redelivery.ActiveIsOnRow | src/services/escrowStore.ts:1625-1634 | In every run the active payment reference is on a transaction row of the escrow. |
| EscrowService.RefreshEscrowPaymentLifecycle | src/services/escrowService.ts:241-345 | The refresh sweeps, reconciles what the provider reports for a pending reference (per currency, sandbox references aside), and records a reminder when one is due. |
| Reconciliation.FundingWithinTolerance | src/services/escrowStore.ts:1691-1715 | In every gated run, every funding entry in the ledger is within tolerance of the quoted total or the base amount. |
| Reconciliation.ReleaseResidue | src/services/escrowService.ts:1494-1497 | In every gated run with whole-unit amount and fee, paid once and released once with the quote, the liability balance is at most the tolerance plus the buyer's share of the fee, plus what the quote would have the seller pay, if anything. |
| Expiry.SweepIsIdempotent | src/services/escrowStore.ts:1721-1824 | Sweeping twice at one time is sweeping once, on every column and row. |
| Expiry.EarlierSweepIsAbsorbed | src/services/escrowStore.ts:1721-1824 | A sweep at t1 and then at t2 >= t1 leaves the status and the transaction rows (up to their stored payloads) that the sweep at t2 alone leaves. |
| Expiry.SweepsCollapse | src/services/escrowStore.ts:1721-1824 | So does any number of sweeps at times that do not go back. |
| Tables.RestatusIsLocal | src/services/escrowStore.ts:2443-2453 | The update of all rows of a reference, seen from one escrow, is the update of that escrow's rows. |
| Tables.PerformedKeepsValid | src/services/escrowStore.ts:1936-1964 | Every permitted call keeps all escrows' books valid and every payment reference with one owner. |
| Tables.SpreadKeepsValid | src/services/escrowStore.ts:2443-2453 | So does a funding or a review whose reference is on rows of other escrows. |
| Tables.SharedReview | src/services/escrowStore.ts:1855-1901 | So is a review. |
| Tables.SharedPayment | src/services/escrowStore.ts:1685-1718 | A payment whose reference is on several escrows is booked on one of them; of the others only the rows of the reference change. |
| Traces.EachEscrowRunsAlone | src/services/escrowStore.ts:1324-2453 | In every sequence of calls on the four shared tables, where an update by reference reaches every row of the reference, each escrow's rows are the outcome of a run of the commands given to it alone, as long as payment references belong to one escrow. |
| Traces.StepGrows | src/services/escrowStore.ts:2424-2453 | To the rows of its escrow every operation does one update by reference at most, and appends. |
| Traces.BooksOfStore | src/services/escrowStore.ts:586-665 | The tables of the class, seen this way, are the books its contracts speak of. |
| Traces.PerformedIsStep | src/services/escrowStore.ts:1685-1718 | What the contract of a store method says is one step of such a sequence. |
| EscrowStore.EscrowStore.CreateEscrow | src/services/escrowStore.ts:1324-1393 | A new escrow starts pending its profile or its acceptance, with one event and nothing else; no other escrow changes. |
| EscrowStore.EscrowStore.AttachPayment | src/services/escrowStore.ts:1551-1651 | The whole new state, for any status: the replaced instruction's rows expire, the row, a pending funding row and one event are written; no other escrow changes, and the invariant holds when the call is permitted. |
| EscrowStore.EscrowStore.AcceptEscrow | src/services/escrowStore.ts:1653-1682 | The whole new state or the error, and the invariant. |
| EscrowStore.EscrowStore.FindEscrowByPaymentReference | src/services/escrowStore.ts:1936-1964 | It finds an escrow that carries the reference, actively or on a transaction row, and none only if there is none. |
| EscrowStore.EscrowStore.MarkFundedByPaymentReference | src/services/escrowStore.ts:1685-1718 | An escrow that carries the reference is funded, unless it has been, and every row of the reference becomes a success; with no such escrow nothing changes; the invariant holds. |
| EscrowStore.EscrowStore.ExpirePendingPaymentIfDue | src/services/escrowStore.ts:1721-1824 | The whole new state of the sweep, in both of its halves, and the invariant. |
| EscrowStore.EscrowStore.MarkPaymentReminderSent | src/services/escrowStore.ts:1827-1853 | The whole new state, from any status, and the invariant when the escrow is pending payment. |
| EscrowStore.EscrowStore.MarkPaymentReviewRequired | src/services/escrowStore.ts:1855-1901 | The whole new state, from any status and for any reference, and the invariant. |
| EscrowStore.EscrowStore.RequestRelease | src/services/escrowStore.ts:1994-2056 | The whole new state or the first error that applies, and the invariant. |
| EscrowStore.EscrowStore.CompleteEscrow | src/services/escrowStore.ts:2058-2076 | The whole new state or the first error that applies, and the invariant. |
| EscrowStore.EscrowStore.MarkDelivered | src/services/escrowStore.ts:2079-2126 | The whole new state or the error, and the invariant. |
| EscrowStore.EscrowStore.CancelUnfundedEscrow | src/services/escrowStore.ts:2129-2156 | The whole new state or the first error that applies, and the invariant. |
| EscrowStore.EscrowStore.ApproveManualRelease | src/services/escrowStore.ts:2159-2247 | The whole new state (row, payout row, release entry, fee entry when there is a fee, event) or the first error that applies, for any payout reference; the invariant, unless it is another escrow's payment reference. |
| EscrowStore.EscrowStore.MarkDisputed | src/services/escrowStore.ts:2271-2285 | The whole new state or the error, and the invariant, from any status. |
| EscrowStore.EscrowStore.ResolveDispute | src/services/escrowStore.ts:2287-2367 | The whole new state for each of the four outcomes or the first error that applies, for any reference; the invariant, unless it is another escrow's payment reference. |
| EscrowStore.EscrowStore.TransitionEscrow | src/services/escrowStore.ts:2388-2422 | The row and the one event of a transition, which records the status it left. |
| EscrowStore.EscrowStore.UpdateTransactionStatus | src/services/escrowStore.ts:2443-2453 | An update by reference changes the rows of that reference, whatever escrow they belong to, and nothing else. |
| EscrowStore.EscrowStore.RecordPayoutPending | src/routes/admin.ts:249-272 | An unfinished payout adds a release row and a remark, for any reference; the invariant, unless it is another escrow's payment reference. |
| EscrowService.ReconcileEscrowPayment | src/services/escrowService.ts:1499-1594 | Whoever carries the references: after the refresh, on the status of the newest row of the reference among all escrows, a review of the escrow, or the funding of an escrow that carries the reference, or, with no such escrow, an error and no change; the invariant. With references of its own it leaves the books that its decision on the refreshed books prescribes, and those of the others alone. |
| EscrowService.PaidUsdcIsFunded | src/services/escrowService.ts:241-345 | A USDC payment reported as paid funds a pending escrow with its own amount unless its row has expired. |
| EscrowService.ReportEnds | src/services/escrowService.ts:241-345 | Of another currency, a verified payment is reconciled as reported, and nothing happens in a sandbox, without a report, a reference, or the pending status. |
| EscrowService.ReminderEnds | src/services/escrowService.ts:241-345 | A refresh ends with a reminder exactly when the escrow is then pending payment, has had none, and its deadline is ahead by no more than the lead. |
| AuditTrail.VerifyEscrowAuditTrail | src/services/escrowStore.ts:2847-2898 | The verifier accepts exactly the intact chains; otherwise it names the first event that breaks it, and says whether the link or the hash is wrong. |
| AuditTrail.EventTable.AddEvent | src/services/escrowStore.ts:2455-2533 | Adding an event appends it to its escrow's log and to no other, and every escrow's log, as it is read back, stays an intact chain. |
| AuditTrail.ReadBackKeepsPayload | src/services/escrowStore.ts:461-477 | An event's hashed fields are the same after its empty fields have been stored as null and read back. |
| AuditTrail.LastHashPinsTheLog | src/services/escrowStore.ts:2847-2898 | Two intact chains with the same last hash are equally long and hash the same payload at every position. |
| AuditTrail.PayloadPinsFields | src/services/escrowStore.ts:2479-2493 | Two field lists with the same payload are equal when only one field, the same in both, may contain the separator. |
| AuditTrail.LastHashPinsTheFields | src/services/escrowStore.ts:2847-2898 | Under that condition two intact chains with the same last hash hold the same fields in every event. |
| AuditTrail.PayloadPinsExactlyWhen | src/services/escrowStore.ts:2479-2493 | For any number of fields of which those at given positions may hold the separator, the payload pins the fields if and only if there is at most one such position. |
| AuditTrail.PayloadIsAmbiguous | src/services/escrowStore.ts:2479-2493 | For the eleven fields of an event: two events with one payload and different fields exist if and only if two positions or more may hold the separator. |
| AuditTrail.WrittenPayloadPinsFields | src/services/escrowStore.ts:2459-2465 | Two events as the store writes them (the reason free, the metadata empty or JSON text, no separator elsewhere) with the same payload have the same fields. |
| AuditTrail.LastHashPinsWhatIsWritten | src/services/escrowStore.ts:2847-2898 | Two intact chains of such events with the same last hash hold the same fields in every event. |
| AuditTrail.NewEventReads | src/services/escrowStore.ts:2479-2493 | Every column of an added event, as it is read back, and its hash over the eleven fields. |
| AuditTrail.ChainStartsAtZeros | src/services/escrowStore.ts:2466-2477 | In an intact chain the first event is linked to sixty-four zeros, each other one to the hash before it. |
| AuditTrail.JoinSplits | src/services/escrowStore.ts:2479-2493 | The payload joins fields with a bar. |
| AuditTrail.LastHashPinsEveryRow | src/services/escrowStore.ts:2847-2898 | Two intact chains of such events, as they are read back, with the same last hash are the same, row by row and column by column. |
| AuditTrail.PayloadPinsMetadata | src/services/escrowStore.ts:2459-2465 | Two such events with the same payload have metadata printed from the same value. |
| Json.StringifyIsBalanced | src/services/escrowStore.ts:2461-2465 | In what `JSON.stringify` prints, every string literal is closed and no separator is outside of one. |
| Json.NoBalancedTail | src/services/escrowStore.ts:2461-2465 | What follows a separator in such a text is not such a text. |
| Json.StringifyIsInjective | src/services/escrowStore.ts:2461-2465 | Two values that `JSON.stringify` prints alike are the same. |
| EditDistance.Levenshtein | src/services/nameMatch.ts:21-35 | The matrix loop computes the recursive edit distance. |
| EditDistance.DistanceIsShortest | src/services/nameMatch.ts:21-35 | The distance is the least number of insertions, deletions and substitutions that turn one string into the other. |
| EditDistance.ZeroIffEqual | src/services/nameMatch.ts:21-35 | The distance is zero exactly between equal strings. |
| EditDistance.Symmetric | src/services/nameMatch.ts:21-35 | The distance is symmetric. |
| EditDistance.Triangle | src/services/nameMatch.ts:21-35 | The triangle inequality. |
| EditDistance.Bounds | src/services/nameMatch.ts:21-35 | The distance lies between the difference of the lengths and the longer length. |
| NameMatch.SimilarityIsOneIffEqual | src/services/nameMatch.ts:37-44 | A token similarity lies between 0 and 1, and is 1 exactly for equal tokens. |
| NameMatch.ScoreIsPlainAverage | src/services/nameMatch.ts:53-80 | For non-empty names, the shortcut for equal names and the two floors never change the decision of the plain average. |
| NameMatch.ScoreRange | src/services/nameMatch.ts:46-80 | The score is between 0 and 100, acceptable means at least 80, and all profile tokens present means 100. |
| NameMatch.ScoreGrows | src/services/nameMatch.ts:64-79 | The score never falls when resolved tokens are added. |
| NameMatch.ScoreIgnoresOrder | src/services/nameMatch.ts:53-80 | The decision does not depend on the order of either name's tokens. |
| NameMatch.SimilarityCountsEdits | src/services/nameMatch.ts:37-44 | Two unequal tokens, neither a one-letter beginning of the other, are one less the length of a shortest edit script per letter of the longer one alike; a one-letter beginning is 0.86. |
| NameMatch.ScoreIsMeanOfGreatest | src/services/nameMatch.ts:46-80 | The score is the nearest whole number to a hundred times the mean of the greatest similarities; strong from 95, medium from 80, weak from 55, acceptable from 80. |
| NameMatch.MissingLetterIsMedium | src/services/nameMatch.ts:53-80 | john smith, resolved as jon smith, scores 88, medium, acceptable. |
| Mutex.MutualExclusion | src/services/escrowStore.ts:277-290 | In every interleaving at most one caller is inside, and callers get in in the order in which they asked. |
| Mutex.Serializable | src/services/escrowStore.ts:837-858 | In every interleaving the database is what the committed transactions make of it, run one by one in the order in which they asked, followed by the writes of the one inside; failed ones leave no trace. |
| Mutex.NoLostTurn | src/services/escrowStore.ts:277-290 | While callers wait and none is inside, one that asked no later than a given one can go on if and only if no BEGIN has failed. |
| Mutex.FailedBeginIsForGood | src/services/escrowStore.ts:840-845 | Once a BEGIN has failed, nobody gets in any more and the database stays as it is. |
| Mutex.TransactionGoesThrough | src/services/escrowStore.ts:837-858 | After every interleaving, with all callers idle, anyone's committed transaction leaves exactly its write, one rolled back leaves nothing, and all are idle again. |
| LimitReview.OneApprovalAtATime | src/services/escrowStore.ts:1502-1514 | In every interleaving of approvals, rejections, failures and crashes at most one approval is between claim and end, and while the review is pending none is. |
| LimitReview.OneEscrowPerRequest | src/routes/ops.ts:239-254 | In every interleaving, the approval of a review with a client request id creates at most one escrow. |
| LimitReview.OneEscrowExactlyWithRequestId | src/routes/ops.ts:239-241 | That is certain exactly when the review carries a client request id. |
| LimitReview.ApprovedHasItsEscrow | src/services/escrowStore.ts:1516-1549 | In every interleaving an approved review, and no other, names an escrow; it exists, carries the review's request id and has the approval event in its log. |
| LimitReview.ApprovalIsFinalExactlyWhen | src/routes/ops.ts:292-305 | No continuation changes an approved review if and only if no rejection that read it earlier is still to write and the approving request has replied. |
| LimitReview.ReadEnds | src/routes/ops.ts:218-235 | A request goes on after reading the review exactly when it may: an amount above the limit, a rejected or an approved review stops an approval, an approved one a rejection. |
| LimitReview.ClaimEnds | src/services/escrowStore.ts:1502-1514 | A claim succeeds exactly when the review is pending, and no other succeeds after it. |
| LimitReview.FailureReopens | src/services/escrowStore.ts:1516-1549 | A failure makes the review pending, a rejection rejected, both without an escrow; a crash leaves it. |
| LimitReview.ApprovalRunsThrough | src/routes/ops.ts:236-281 | From every desk on which the review is pending, an undisturbed approval ends approved, with the newest escrow of its request or else a new one, and one approval event. |
| Csv.RoundTrip | src/services/escrowService.ts:1277-1280 | A reader by the rules of section 2 of RFC 4180 gets back every record and every field that was printed, whatever they contain. |
| Csv.ExportReadsBack | src/services/escrowService.ts:1282-1348 | Reading the export gives the thirty headers and, row by row, the text of all thirty cells. |
| Csv.DerivedColumns | src/services/escrowService.ts:1327-1329 | The payment status column says whether there is a payment reference, the settlement reference repeats it, and the settlement amount is the received amount, or the expected one exactly when nothing was received. |
| Csv.PartyColumns | src/services/escrowService.ts:1282-1348 | Which header stands over which field: the parties and the currency. |
| Csv.StateColumns | src/services/escrowService.ts:1282-1348 | Id, status and flags. |
| Csv.AmountColumns | src/services/escrowService.ts:1282-1348 | The amounts. |
| Csv.FeeColumns | src/services/escrowService.ts:1282-1348 | The fee and the net. |
| Csv.PaymentColumns | src/services/escrowService.ts:1282-1348 | The payment. |
| Csv.PayoutColumns | src/services/escrowService.ts:1282-1348 | The payout. |
| Csv.AccountColumns | src/services/escrowService.ts:1282-1348 | The account. |
| Csv.RiskColumns | src/services/escrowService.ts:1282-1348 | The risk. |
| Csv.TextOfCells | src/services/escrowService.ts:1277-1280 | A list is shown with bars, an absent value as nothing. |
| IpAllowlist.AddressValue | src/middleware/ipAllowlist.ts:7-13 | Despite 32-bit wrap-around an address of four octets has the value ((a*256+b)*256+c)*256+d, and nothing else has a value. |
| IpAllowlist.MatchIsBlockMembership | src/middleware/ipAllowlist.ts:15-24 | For every prefix from 0 to 32, a match says that the two addresses agree on their top bits, and that the one lies in the other's block (section 3.1 of RFC 4632). |
| IpAllowlist.ShorterPrefixMatches | src/middleware/ipAllowlist.ts:15-24 | A match at a longer prefix is a match at every shorter one. |
| IpAllowlist.MatchesExactlyWhen | src/middleware/ipAllowlist.ts:7-24 | Addresses and prefix match exactly when they are four bytes each, the prefix is from 0 to 32, and both values lie in one block of two to the 32 less the prefix. |
| Monitoring.AlertLimiter.ShouldSendAlert | src/services/monitoring.ts:39-54 | The decision and the whole new map, eviction loop included. |
| Monitoring.EvictionIsInvisible | src/services/monitoring.ts:49-53 | With a positive clock that does not go back, the evicting map decides as one that never evicts. |
| Monitoring.AlertsAreSpaced | src/services/monitoring.ts:39-54 | Two alerts of one signature that go out are at least the cooldown apart, and one is held back only for one that went out less than the cooldown before. |
| Monitoring.RecentEvents.PushOperationalEvent | src/services/monitoring.ts:20-34 | The event list is always the newest hundred events, newest first. |
| Monitoring.LimiterEnds | src/services/monitoring.ts:39-54 | An alert is held back exactly when one of its signature is less than 300000 milliseconds old; entries go exactly above 500 of them and when older than that. |

## Left out

- EscrowStore.EscrowStore.AttachPayment: the purpose, network and authorization URL columns; the invariant after a status other than PENDING_PAYMENT, which no caller passes.
- EscrowStore.EscrowStore.AcceptEscrow: the comparison of WhatsApp identities and the creation of the seller's user row; whether the caller is invited and the resulting user id are parameters.
- EscrowStore.EscrowStore.ApproveManualRelease: the link from ledger entries to their transaction row, and the fixed wording of reasons.
- EscrowStore.EscrowStore.RequestRelease: the wording of reasons; the payout account is read once, as a parameter.
- EscrowStore.EscrowStore.ExpirePendingPaymentIfDue: for an unknown escrow the code returns null; the model says `EscrowNotFound`.
- EscrowStore.EscrowStore.MarkPaymentReminderSent: the code does not check that the escrow exists, and logs a reminder for an unknown id; its callers have just read the escrow.
- EscrowStore.EscrowStore.TransitionEscrow: the hash columns of its event, which are modelled on a table of their own (`AuditTrail.EventTable`), with the same insertion order.
- EscrowService.ReconcileEscrowPayment: notifications, and the escrow amount and currency in the text of a mismatch; what the provider answers, and whether a reference is a sandbox one, are parameters.
- AuditTrail.WrittenPayloadPinsFields: lone surrogates, which `JSON.stringify` escapes and Dafny's characters do not include.
- AuditTrail.EventTable.AddEvent: event ids, and two events of one escrow in the same millisecond, whose order the store does not fix.
- Csv.RoundTrip: how numbers and booleans are turned into text; a cell's value comes as text, as a list of texts or as null.
- IpAllowlist.MatchIsBlockMembership: splitting the text, trimming it and parsing numbers; the parsed numbers (or not-a-number) are the input. The list of entries and the wildcard are plain disjunctions.
- NameMatch.ScoreIsPlainAverage: Unicode normalisation and the removal of titles; token lists are the input.
- Mutex.Serializable: a transaction begun inside another on SQLite, which waits for itself, a ROLLBACK that fails, and writes that bypass `runTransaction` while one is open.
- LimitReview.OneEscrowPerRequest: notifications, and the amount limit, which is a choice of the step that reads the review.
- Floating-point rounding, and the rarer Unicode spaces that `trim` removes from a payout reference.
- The transaction hash column, which no read maps back, and the network, purpose and review-note columns.
- Postgres: the two branches of every statement are one table update here; its races without row locks are not modelled.
- Stale reads: annotations written by routes and webhooks record the status at the time of the write.
- `saveAiDisputeRecommendation`, users, profiles, payout accounts, proofs, AI audit rows and the abuse and job tables.
- HTTP routing, request schemas, authentication, notifications and provider clients.
