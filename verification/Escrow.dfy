/** The rows the escrow store keeps, seen one escrow at a time.
    Money is exact (`real`), times are milliseconds (`int`). */
module Escrow {
  import opened Wrappers

  datatype Currency = NAIRA | USDC | USDT

  datatype Status =
    | CREATED | PENDING_PROFILE | PENDING_ACCEPTANCE | PENDING_PAYMENT | FUNDED
    | IN_PROGRESS | DELIVERED | COMPLETED | PENDING_RELEASE | RELEASED
    | DISPUTED | REVIEW_REQUIRED | FAILED | EXPIRED | CANCELLED

  datatype FeePayer = BuyerPays | SellerPays | SplitFee

  /** A text column that is present: the store reads the empty string back as absent. */
  type Text = s: string | s != "" witness "-"

  /** A date as it comes out of a column: a time, or text that does not parse. */
  datatype Stamp = At(ms: int) | Unparsable

  datatype EscrowRow = EscrowRow(
    amount: real,
    currency: Currency,
    feePayer: FeePayer,
    sellerUserId: Option<Text>,
    sellerWhatsapp: Option<Text>,
    status: Status,
    paymentReference: Option<Text>,
    paymentProvider: Option<Text>,
    fundingExpiresAt: Option<Stamp>,
    activePaymentExpiresAt: Option<Stamp>,
    paymentRegenerationCount: nat,
    lastPaymentReminderAt: Option<int>,
    receivedAmount: Option<real>,
    providerPaymentStatus: Option<Text>,
    paymentCheckedAt: Option<int>,
    reconciliationFlags: seq<string>,
    releaseRequestedAt: Option<int>,
    deliveredAt: Option<int>,
    inspectionExpiresAt: Option<int>,
    manualPayoutReference: Option<Text>,
    payoutNotes: Option<Text>,
    releasedBy: Option<Text>,
    releasedAt: Option<int>)

  datatype TxnKind = FundingTxn | ReleaseTxn | RefundTxn

  /** What the expiry sweep reads back from a stored provider payload. */
  datatype Payload = Payload(expiresAt: Option<Stamp>, expiresInSeconds: int)

  datatype Txn = Txn(
    provider: string,
    kind: TxnKind,
    status: string,
    reference: Option<Text>,
    amount: real,
    currency: Currency,
    processorFee: Option<real>,
    payload: Option<Payload>,
    createdAt: int)

  /** Ledger accounts; a provider name is the suffix of the account's text. */
  datatype Account =
    | BuyerPayment(provider: string)
    | EscrowLiability
    | SellerPayable(provider: string)
    | PlatformFeeRevenue
    | BuyerRefund(channel: string)

  datatype EntryType = FundingEntry | ReleaseEntry | RefundEntry | FeeEntry

  datatype LedgerEntry = LedgerEntry(
    entryType: EntryType,
    debit: Account,
    credit: Account,
    amount: real,
    currency: Currency,
    reference: Option<Text>)

  datatype DisputeOutcome = ReleaseToSeller | RefundBuyer | CancelNoFunds | NoActionClose

  /** The event types, each with the part of its metadata that the model reads. */
  datatype EventType =
    | EscrowCreated
    | PaymentInitialized
    | PaymentInstructionRegenerated
    | SellerAccepted
    | PaymentVerified(amount: Option<real>)
    | EscrowFundingExpired
    | PaymentExpired
    | PaymentReminderSent
    | PaymentReviewRequired(receivedAmount: Option<real>)
    | AutonomousUsdcRelease
    | HighValueReleaseReviewRequired
    | ReleaseRequested
    | BuyerCompleted
    | SellerDeliveryProofRecorded
    | BuyerCancelledUnfunded
    | ManualReleaseApproved(payoutReference: Text, platformFeeAmount: real, sellerNetAmount: real)
    | DisputeOpened
    | DisputeResolved(outcome: DisputeOutcome, reference: Option<Text>)
    | Annotation(name: string)

  datatype Event = Event(
    actor: string,
    actorRole: string,
    channel: string,
    previousStatus: Option<Status>,
    nextStatus: Option<Status>,
    eventType: EventType,
    reason: Option<Text>,
    createdAt: int)

  /** Everything stored about one escrow: its row and its rows in the three other tables. */
  datatype Book = Book(
    id: string,
    row: EscrowRow,
    txns: seq<Txn>,
    ledger: seq<LedgerEntry>,
    log: seq<Event>)

  /** `value || null` on a string. */
  function Present(s: string): Option<Text> {
    if s == "" then None else Some(s)
  }

  /** `a || b` on two optional strings. */
  function Either<T>(a: Option<T>, b: Option<T>): Option<T> {
    if a.Some? then a else b
  }

  /** `a || b` on an optional amount: zero counts as absent. */
  function AmountOr(a: Option<real>, b: real): real {
    if a.Some? && a.value != 0.0 then a.value else b
  }

  /** `a ?? b`: zero counts as present. */
  function AmountElse(a: Option<real>, b: real): real {
    if a.Some? then a.value else b
  }

  /** `Math.max(0, x)`. */
  function NonNegative(x: real): real {
    if x < 0.0 then 0.0 else x
  }

  function TextOr(a: Option<Text>, b: string): string {
    if a.Some? then a.value else b
  }
}
