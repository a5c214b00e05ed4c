/** What every store operation does to the rows of one escrow.
    `Apply` is the specification the class `EscrowStore` is proved against, and the
    step whose runs the other modules reason about. */
module Lifecycle {
  import opened Wrappers
  import opened Escrow

  datatype Error =
    | EscrowNotFound
    | OnlyInvitedSeller
    | OnlyBuyer
    | OnlyParticipants
    | CannotBeReleasedFrom(status: Status)
    | HighValueNeedsManualReview
    | PayoutAccountNotVerified
    | PayoutNameMatchTooWeak
    | PayoutAccountShared
    | CannotBeCompletedFrom(status: Status)
    | CannotBeDeliveredFrom(status: Status)
    | CannotBeCancelledFrom(status: Status)
    | FundedCannotBeCancelled
    | PayoutReferenceRequired
    | GrossAmountMismatch
    | NetExceedsGross
    | MustBePendingRelease
    | CannotBeResolvedFrom(status: Status)
    | NoEscrowForPayment

  /** A finished call, or the error it throws; a throwing call leaves every table as it was. */
  datatype Outcome = Done(book: Book) | Rejected(error: Error)

  datatype NameMatchLevel = Strong | Medium | Weak | Failed

  /** The seller's payout account as the store reads it at the time of the call. */
  datatype PayoutAccount = PayoutAccount(verified: bool, nameMatch: Option<NameMatchLevel>, shared: bool)

  /** The WhatsApp numbers of the buyer's and the seller's user rows, where the rows exist. */
  datatype Directory = Directory(buyer: Option<string>, seller: Option<string>)

  datatype NewEscrow = NewEscrow(
    buyerUserId: string,
    sellerUserId: Option<Text>,
    sellerWhatsapp: Option<Text>,
    amount: real,
    currency: Currency,
    feePayer: Option<FeePayer>,
    purpose: string,
    createdByChannel: string)

  datatype Instruction = Instruction(
    paymentReference: Text,
    paymentProvider: Text,
    metadata: Option<Payload>,
    amount: Option<real>,
    status: Option<Status>,
    fundingExpiresAt: Option<Stamp>,
    activePaymentExpiresAt: Option<Stamp>,
    regenerate: bool)

  /** The metadata that comes with a funding call. */
  datatype Receipt = Receipt(
    amount: Option<real>,
    status: Option<Text>,
    provider: Option<Text>,
    processorFee: Option<real>,
    payload: Option<Payload>)

  /** What a reconciliation reports when a payment needs a human. */
  datatype Finding = Finding(
    receivedAmount: Option<real>,
    providerPaymentStatus: Option<Text>,
    flags: seq<string>,
    reason: string,
    reference: Option<Text>,
    provider: Option<Text>)

  datatype Release = Release(
    payoutReference: string,
    payoutNotes: Option<Text>,
    grossAmount: Option<real>,
    platformFeeAmount: Option<real>,
    sellerNetAmount: Option<real>,
    payoutProvider: Option<Text>)

  datatype Thresholds = Thresholds(naira: Option<real>, usdc: Option<real>)

  datatype Command =
    | Attach(instruction: Instruction, now: int)
    | Accept(seller: Text, invited: bool, sellerUser: Option<Text>, now: int)
    | Fund(reference: Text, receipt: Receipt, now: int)
    | Expire(now: int)
    | Remind(now: int)
    | Review(finding: Finding, now: int)
    | RequestRelease(actor: Text, directory: Directory, channel: string, payout: Option<PayoutAccount>,
                     thresholds: Thresholds, now: int)
    | Complete(actor: Text, directory: Directory, channel: string, now: int)
    | Deliver(actor: Text, channel: string, summary: string, inspectionDays: int, now: int)
    | Cancel(actor: Text, directory: Directory, channel: string, now: int)
    | Approve(admin: Text, release: Release, payout: Option<PayoutAccount>, now: int)
    | Dispute(actor: Text, directory: Directory, channel: string, reason: string, now: int)
    | Resolve(admin: Text, outcome: DisputeOutcome, reason: string, payoutReference: string, now: int)
    | PayoutPending(admin: Text, provider: string, status: string, amount: real, payoutReference: string,
                    message: string, now: int)
    | Annotate(actor: Text, actorRole: string, channel: string, name: string, withStatus: bool, reason: string,
               now: int)

  // ----- the writes every operation is made of -----

  function WithEvent(b: Book, e: Event): Book {
    b.(log := b.log + [e])
  }

  function WithTxn(b: Book, t: Txn): Book {
    b.(txns := b.txns + [t])
  }

  function WithEntry(b: Book, e: LedgerEntry): Book {
    b.(ledger := b.ledger + [e])
  }

  /** `UPDATE transactions SET status, processor_fee, raw_payload WHERE reference = ...` on one row. */
  function Restatus(t: Txn, reference: Text, status: string, fee: Option<real>, payload: Option<Payload>): Txn {
    if t.reference == Some(reference)
    then t.(status := status, processorFee := Either(fee, t.processorFee), payload := Either(payload, t.payload))
    else t
  }

  function RestatusAll(txns: seq<Txn>, reference: Text, status: string, fee: Option<real>,
                       payload: Option<Payload>): (r: seq<Txn>)
  {
    seq(|txns|, i requires 0 <= i < |txns| => Restatus(txns[i], reference, status, fee, payload))
  }

  const NO_DATES := Payload(None, 0)

  function UpdateTransactionStatus(b: Book, reference: Text, status: string, fee: Option<real>,
                                   payload: Option<Payload>): Book
  {
    b.(txns := RestatusAll(b.txns, reference, status, fee, payload))
  }

  function RecordPaymentReconciliation(row: EscrowRow, received: Option<real>, status: Option<Text>, flags: seq<string>,
                                       now: int): EscrowRow
  {
    row.(receivedAmount := Either(received, row.receivedAmount),
         providerPaymentStatus := Either(status, row.providerPaymentStatus),
         paymentCheckedAt := Some(now),
         reconciliationFlags := flags)
  }

  function RecordPayoutReconciliation(row: EscrowRow, releasedBy: Text, reference: Text, notes: Option<Text>,
                                      now: int): EscrowRow
  {
    row.(manualPayoutReference := Some(reference), payoutNotes := notes, releasedBy := Some(releasedBy),
         releasedAt := Some(now))
  }

  /** The row after `transitionEscrow`. */
  function TransitionedRow(id: string, row: EscrowRow, next: Status, actor: Text, now: int): EscrowRow {
    row.(status := next,
         releaseRequestedAt := if next == PENDING_RELEASE then Some(now) else row.releaseRequestedAt,
         releasedAt := if next == RELEASED then Either(row.releasedAt, Some(now)) else row.releasedAt,
         releasedBy := if next == RELEASED then Either(row.releasedBy, Some(actor)) else row.releasedBy,
         manualPayoutReference :=
           if next == RELEASED && row.manualPayoutReference.None? && row.currency == USDC
           then Either(row.paymentReference, Some("x402-" + id))
           else row.manualPayoutReference)
  }

  function Transition(b: Book, next: Status, actor: Text, actorRole: string, channel: string, eventType: EventType,
                      reason: Option<Text>, now: int): Book
  {
    WithEvent(b.(row := TransitionedRow(b.id, b.row, next, actor, now)),
              Event(actor, actorRole, channel, Some(b.row.status), Some(next), eventType, reason, now))
  }

  // ----- the checks -----

  predicate IsBuyer(actor: Text, directory: Directory) {
    actor == "system-sweep" || directory.buyer == Some(actor)
  }

  predicate IsParticipant(row: EscrowRow, actor: Text, directory: Directory) {
    || directory.buyer == Some(actor)
    || (row.sellerUserId.Some? && directory.seller == Some(actor))
    || row.sellerWhatsapp == Some(actor)
  }

  predicate AcceptableMatch(level: Option<NameMatchLevel>) {
    level == Some(Strong) || level == Some(Medium)
  }

  function PayoutError(payout: Option<PayoutAccount>): Option<Error> {
    if payout.None? || !payout.value.verified then Some(PayoutAccountNotVerified)
    else if !AcceptableMatch(payout.value.nameMatch) then Some(PayoutNameMatchTooWeak)
    else if payout.value.shared then Some(PayoutAccountShared)
    else None
  }

  function Threshold(currency: Currency, t: Thresholds): real {
    if currency == NAIRA then AmountElse(t.naira, 500000.0) else AmountElse(t.usdc, 2500.0)
  }

  /** The characters that `trim` removes (the rarer Unicode spaces are not listed). */
  const WHITESPACE: set<char> := {' ', '\t', '\n', '\r', '\U{000B}', '\U{000C}', '\U{00A0}', '\U{FEFF}'}

  predicate Blank(s: string) {
    forall i :: 0 <= i < |s| ==> s[i] in WHITESPACE
  }

  // ----- the operations -----

  function Create(id: string, input: NewEscrow, now: int): Book {
    var status := if input.sellerUserId.Some? then PENDING_ACCEPTANCE else PENDING_PROFILE;
    var row := EscrowRow(
                 input.amount, input.currency, if input.feePayer.Some? then input.feePayer.value else BuyerPays,
                 input.sellerUserId, input.sellerWhatsapp, status,
                 None, None, None, None, 0, None, None, None, None, [], None, None, None, None, None, None, None);
    var created := Event(input.buyerUserId, "buyer", input.createdByChannel, None, Some(status), EscrowCreated,
                         Present(input.purpose), now);
    Book(id, row, [], [], [created])
  }

  /** The row a payment instruction leaves. */
  function AttachedRow(row: EscrowRow, i: Instruction): EscrowRow {
    row.(
      paymentReference := Some(i.paymentReference),
      paymentProvider := Some(i.paymentProvider),
      fundingExpiresAt := Either(i.fundingExpiresAt, row.fundingExpiresAt),
      activePaymentExpiresAt := Either(i.activePaymentExpiresAt, if i.metadata.Some? then i.metadata.value.expiresAt
                                       else None),
      paymentRegenerationCount := row.paymentRegenerationCount + (if i.regenerate then 1 else 0),
      status := if i.status.Some? then i.status.value else row.status)
  }

  function InstructionTxn(row: EscrowRow, i: Instruction, now: int): Txn {
    Txn(i.paymentProvider, FundingTxn, "pending", Some(i.paymentReference), AmountElse(i.amount, row.amount),
        row.currency, None, i.metadata, now)
  }

  function InstructionEvent(row: EscrowRow, i: Instruction, now: int): Event {
    Event("system", "system", "api", Some(row.status), Some(AttachedRow(row, i).status),
          if i.regenerate then PaymentInstructionRegenerated else PaymentInitialized, Some(i.paymentReference), now)
  }

  /** A new instruction expires the rows of the one it replaces. */
  function WithReplaced(b: Book, reference: Text): Book {
    if b.row.paymentReference.Some? && b.row.paymentReference.value != reference
    then UpdateTransactionStatus(b, b.row.paymentReference.value, "expired", None, Some(NO_DATES))
    else b
  }

  function AttachPayment(b: Book, i: Instruction, now: int): Book {
    var b1 := WithReplaced(b, i.paymentReference);
    WithEvent(WithTxn(b1.(row := AttachedRow(b.row, i)), InstructionTxn(b.row, i, now)),
              InstructionEvent(b.row, i, now))
  }

  function InvitedRow(row: EscrowRow, seller: Text, sellerUser: Option<Text>): EscrowRow {
    if row.sellerUserId.None? && sellerUser.Some? then row.(sellerUserId := sellerUser, sellerWhatsapp := Some(seller))
    else row
  }

  function AcceptEscrow(b: Book, seller: Text, invited: bool, sellerUser: Option<Text>, now: int): Outcome {
    if b.row.sellerWhatsapp.Some? && !invited then Rejected(OnlyInvitedSeller)
    else if b.row.status !in {PENDING_ACCEPTANCE, PENDING_PROFILE} then Done(b)
    else
      Done(Transition(b.(row := InvitedRow(b.row, seller, sellerUser)), PENDING_PAYMENT, seller, "seller",
                      "whatsapp_dm", SellerAccepted, Some("Seller accepted escrow invitation"), now))
  }

  /** The statuses in which a funding call is a no-op. */
  const FUNDED_OR_LATER := {FUNDED, IN_PROGRESS, COMPLETED, PENDING_RELEASE, RELEASED}

  /** Whether `findEscrowByPaymentReference` finds this escrow. */
  predicate Carries(b: Book, reference: Text) {
    RefersTo(b.row, b.txns, reference)
  }

  predicate RefersTo(row: EscrowRow, txns: seq<Txn>, reference: Text) {
    row.paymentReference == Some(reference) || exists i :: 0 <= i < |txns| && txns[i].reference == Some(reference)
  }

  function FundingEntryOf(row: EscrowRow, reference: Text, receipt: Receipt): LedgerEntry {
    var provider := TextOr(Either(receipt.provider, row.paymentProvider), "provider");
    LedgerEntry(FundingEntry, BuyerPayment(if row.currency == NAIRA then provider else "x402"), EscrowLiability,
                AmountOr(receipt.amount, row.amount), row.currency, Some(reference))
  }

  function Payer(given: Option<Text>, row: EscrowRow): Text {
    var provider := Either(given, row.paymentProvider);
    if provider.Some? then provider.value else "payment_provider"
  }

  /** What was received is recorded on the row, and the escrow moves on. */
  function Reconciled(b: Book, received: Option<real>, status: Option<Text>, flags: seq<string>,
                      next: Status, payer: Text, channel: string, eventType: EventType, reason: Option<Text>,
                        now: int): Book {
    Transition(b.(row := RecordPaymentReconciliation(b.row, received, status, flags, now)),
               next, payer, "payment_provider", channel, eventType, reason, now)
  }

  function FundingReceived(b: Book, reference: Text, receipt: Receipt, now: int): Book {
    Reconciled(b, receipt.amount, Either(receipt.status, Some("success")), [],
               IN_PROGRESS, Payer(receipt.provider, b.row), "webhook", PaymentVerified(receipt.amount), Some(reference),
                 now)
  }

  function MarkFunded(b: Book, reference: Text, receipt: Receipt, now: int): Book {
    if b.row.status in FUNDED_OR_LATER then b
    else
      var b1 := FundingReceived(b, reference, receipt, now);
      var b2 := UpdateTransactionStatus(b1, reference, "success", receipt.processorFee, receipt.payload);
      WithEntry(b2, FundingEntryOf(b.row, reference, receipt))
  }

  predicate Due(s: Option<Stamp>, now: int) {
    s.Some? && s.value.At? && s.value.ms <= now
  }

  predicate IsPendingFunding(t: Txn) {
    t.kind == FundingTxn && t.status == "pending"
  }

  /** The newest pending funding row of a reference (rows are listed newest first). */
  function NewestPending(txns: seq<Txn>, reference: Text): Option<Txn> {
    if txns == [] then None
    else
      var last := txns[|txns| - 1];
      if IsPendingFunding(last) && last.reference == Some(reference) then Some(last)
      else NewestPending(txns[..|txns| - 1], reference)
  }

  /** When the active payment instruction lapses. */
  function InstructionDeadline(row: EscrowRow, funding: Txn): Option<Stamp> {
    if funding.payload.None? then None
    else
      var stated := Either(row.activePaymentExpiresAt, funding.payload.value.expiresAt);
      if stated.Some? then stated
      else if funding.payload.value.expiresInSeconds > 0
      then Some(At(funding.createdAt + funding.payload.value.expiresInSeconds * 1000))
      else None
  }

  function LapsedRow(row: EscrowRow): EscrowRow {
    row.(paymentReference := None, activePaymentExpiresAt := None)
  }

  function ExpirePendingPayment(b: Book, now: int): Book {
    if b.row.status != PENDING_PAYMENT then b
    else if Due(b.row.fundingExpiresAt, now) then
      var b1 := if b.row.paymentReference.Some?
                then UpdateTransactionStatus(b, b.row.paymentReference.value, "expired", None, Some(NO_DATES))
                else b;
      Transition(b1, EXPIRED, "system", "system", "api", EscrowFundingExpired,
                 Either(b.row.paymentReference, Present(b.id)), now)
    else if b.row.paymentReference.None? then b
    else
      var funding := NewestPending(b.txns, b.row.paymentReference.value);
      if funding.None? || !Due(InstructionDeadline(b.row, funding.value), now) then b
      else
        var reference := b.row.paymentReference.value;
        var b1 := UpdateTransactionStatus(b, reference, "expired", None,
                                          Some(Payload(InstructionDeadline(b.row, funding.value), 0)));
        var b2 := b1.(row := LapsedRow(b1.row));
        WithEvent(b2, Event(TextOr(b.row.paymentProvider, "payment_provider"), "payment_provider", "api",
                            Some(PENDING_PAYMENT), Some(PENDING_PAYMENT), PaymentExpired, Some(reference), now))
  }

  function MarkReminderSent(b: Book, now: int): Book {
    WithEvent(b.(row := b.row.(lastPaymentReminderAt := Some(now))),
              Event("system", "system", "api", Some(PENDING_PAYMENT), Some(PENDING_PAYMENT), PaymentReminderSent, None,
                    now))
  }

  function ReviewReceived(b: Book, f: Finding, now: int): Book {
    Reconciled(b, f.receivedAmount, f.providerPaymentStatus, f.flags,
               REVIEW_REQUIRED, Payer(f.provider, b.row), "reconciliation", PaymentReviewRequired(f.receivedAmount),
                 Present(f.reason), now)
  }

  function MarkReviewRequired(b: Book, f: Finding, now: int): Book {
    var b1 := ReviewReceived(b, f, now);
    if f.reference.Some? then UpdateTransactionStatus(b1, f.reference.value, "review_required", None, Some(NO_DATES))
    else b1
  }

  function RequestReleaseOf(b: Book, actor: Text, directory: Directory, channel: string, payout: Option<PayoutAccount>,
                            t: Thresholds, now: int): Outcome
  {
    if !IsBuyer(actor, directory) then Rejected(OnlyBuyer)
    else if b.row.status !in {COMPLETED, DELIVERED} then Rejected(CannotBeReleasedFrom(b.row.status))
    else if b.row.currency == USDC then
      if b.row.amount >= Threshold(USDC, t) then Rejected(HighValueNeedsManualReview)
      else Done(Transition(b, RELEASED, actor, "buyer", channel, AutonomousUsdcRelease,
                           Some("Buyer confirmed release"), now))
    else if b.row.sellerUserId.Some? && PayoutError(payout).Some? then Rejected(PayoutError(payout).value)
    else if b.row.amount >= Threshold(b.row.currency, t) then
      Done(Transition(b, REVIEW_REQUIRED, actor, "buyer", channel, HighValueReleaseReviewRequired,
                      Some("High-value review required"), now))
    else
      Done(Transition(b, PENDING_RELEASE, actor, "buyer", channel, ReleaseRequested,
                      Some("Manual payout approval required"), now))
  }

  function CompleteEscrow(b: Book, actor: Text, directory: Directory, channel: string, now: int): Outcome {
    if !IsBuyer(actor, directory) then Rejected(OnlyBuyer)
    else if b.row.status !in {IN_PROGRESS, FUNDED, DELIVERED} then Rejected(CannotBeCompletedFrom(b.row.status))
    else Done(Transition(b, COMPLETED, actor, "buyer", channel, BuyerCompleted,
                         Some("Buyer confirmed work is complete"), now))
  }

  const DAY_MS := 24 * 60 * 60 * 1000

  function DeliveredRow(row: EscrowRow, inspectionDays: int, now: int): EscrowRow {
    row.(deliveredAt := Some(now), inspectionExpiresAt := Some(now + inspectionDays * DAY_MS))
  }

  function MarkDelivered(b: Book, actor: Text, channel: string, summary: string, inspectionDays: int,
                         now: int): Outcome
  {
    if b.row.status !in {FUNDED, IN_PROGRESS, DELIVERED} then Rejected(CannotBeDeliveredFrom(b.row.status))
    else
      var b1 := Transition(b, DELIVERED, actor, "seller", channel, SellerDeliveryProofRecorded, Present(summary), now);
      Done(b1.(row := DeliveredRow(b1.row, inspectionDays, now)))
  }

  function Cancelled(b: Book, actor: Text, channel: string, now: int): Book {
    var b1 := Transition(b, CANCELLED, actor, "buyer", channel, BuyerCancelledUnfunded,
                         Some("Cancelled before funding"), now);
    if b.row.paymentReference.Some?
    then UpdateTransactionStatus(b1, b.row.paymentReference.value, "cancelled", None, Some(NO_DATES))
    else b1
  }

  function CancelUnfunded(b: Book, actor: Text, directory: Directory, channel: string, now: int): Outcome {
    if !IsBuyer(actor, directory) then Rejected(OnlyBuyer)
    else if b.row.status == CANCELLED then Done(b)
    else if b.row.status !in {PENDING_PROFILE, PENDING_ACCEPTANCE, PENDING_PAYMENT}
    then Rejected(CannotBeCancelledFrom(b.row.status))
    else if AmountOr(b.row.receivedAmount, 0.0) != 0.0
      || TextOr(b.row.providerPaymentStatus, "") in {"success", "sandbox_success"}
    then Rejected(FundedCannotBeCancelled)
    else Done(Cancelled(b, actor, channel, now))
  }

  function ApproveError(row: EscrowRow, r: Release, payout: Option<PayoutAccount>): Option<Error> {
    var gross := AmountElse(r.grossAmount, row.amount);
    if Blank(r.payoutReference) then Some(PayoutReferenceRequired)
    else if gross != row.amount then Some(GrossAmountMismatch)
    else if NonNegative(AmountElse(r.sellerNetAmount, gross)) > gross then Some(NetExceedsGross)
    else if row.currency == NAIRA && row.status != PENDING_RELEASE then Some(MustBePendingRelease)
    else if row.currency == NAIRA && row.sellerUserId.Some? then PayoutError(payout)
    else None
  }

  function ReleaseTxnOf(row: EscrowRow, r: Release, reference: Text, net: real, now: int): Txn {
    var naira := row.currency == NAIRA;
    Txn(TextOr(r.payoutProvider, if naira then "manual_bank_transfer" else "x402"), ReleaseTxn,
        if naira then "payout_succeeded" else "released", Some(reference), net, row.currency, None, Some(NO_DATES), now)
  }

  function ReleaseEntryOf(row: EscrowRow, r: Release, reference: Text, net: real): LedgerEntry {
    LedgerEntry(ReleaseEntry, EscrowLiability,
                SellerPayable(if row.currency == NAIRA then TextOr(r.payoutProvider, "manual_bank_transfer")
                              else "x402"),
                net, row.currency, Some(reference))
  }

  function FeeEntryOf(row: EscrowRow, reference: Text, fee: real): LedgerEntry {
    LedgerEntry(FeeEntry, EscrowLiability, PlatformFeeRevenue, fee, row.currency, Some(reference))
  }

  /** The transaction row and the ledger entries of a payout; the fee gets an entry when there is one. */
  function WithPayout(b: Book, row: EscrowRow, r: Release, reference: Text, fee: real, net: real, now: int): Book {
    var b1 := WithEntry(WithTxn(b, ReleaseTxnOf(row, r, reference, net, now)), ReleaseEntryOf(row, r, reference, net));
    if fee > 0.0 then WithEntry(b1, FeeEntryOf(row, reference, fee)) else b1
  }

  /** The books of an approved release. */
  function PaidOut(b: Book, admin: Text, r: Release, reference: Text, now: int): Book {
    var fee := NonNegative(AmountElse(r.platformFeeAmount, 0.0));
    var net := NonNegative(AmountElse(r.sellerNetAmount, AmountElse(r.grossAmount, b.row.amount)));
    var b1 := Transition(b, RELEASED, admin, "admin", "admin", ManualReleaseApproved(reference, fee, net),
                         Some("Payout approved"), now);
    var b2 := b1.(row := RecordPayoutReconciliation(b1.row, admin, reference, r.payoutNotes, now));
    WithPayout(b2, b.row, r, reference, fee, net, now)
  }

  function ApproveManualRelease(b: Book, admin: Text, r: Release, payout: Option<PayoutAccount>, now: int): Outcome {
    var error := ApproveError(b.row, r, payout);
    if error.Some? then Rejected(error.value) else Done(PaidOut(b, admin, r, r.payoutReference, now))
  }

  function MarkDisputed(b: Book, actor: Text, directory: Directory, channel: string, reason: string,
                        now: int): Outcome
  {
    if channel != "admin" && !IsParticipant(b.row, actor, directory) then Rejected(OnlyParticipants)
    else Done(Transition(b, DISPUTED, actor, "participant", channel, DisputeOpened,
                         Either(Present(reason), Some("Dispute opened")), now))
  }

  function DisputeProvider(row: EscrowRow): string {
    TextOr(row.paymentProvider, if row.currency == NAIRA then "paystack" else "x402")
  }

  function DisputeSuffix(row: EscrowRow): string {
    if row.currency == NAIRA then "naira" else "x402"
  }

  /** A dispute decided for the seller pays out the bare amount. */
  function WithDisputeRelease(b: Book, row: EscrowRow, admin: Text, reason: string, paid: Text, now: int): Book {
    var b1 := b.(row := RecordPayoutReconciliation(b.row, admin, paid, Some("Dispute resolution: " + reason), now));
    var b2 := WithTxn(b1, Txn(DisputeProvider(row), ReleaseTxn, "manual_dispute_release", Some(paid), row.amount,
                              row.currency, None, Some(NO_DATES), now));
    WithEntry(b2, LedgerEntry(ReleaseEntry, EscrowLiability, SellerPayable(DisputeSuffix(row)), row.amount,
                              row.currency, Some(paid)))
  }

  /** A dispute decided for the buyer pays back what was last reported as received. */
  function WithRefund(b: Book, row: EscrowRow, given: Option<Text>, now: int): Book {
    var owed := AmountOr(row.receivedAmount, row.amount);
    var b1 := WithTxn(b, Txn(DisputeProvider(row), RefundTxn, "manual_refund_recorded", given, owed, row.currency, None,
                             Some(NO_DATES), now));
    WithEntry(b1, LedgerEntry(RefundEntry, EscrowLiability, BuyerRefund(DisputeSuffix(row)), owed, row.currency, given))
  }

  function ResolvedReference(id: string, given: Option<Text>): Text {
    if given.Some? then given.value else "dispute-release-" + id
  }

  /** The books of a decided dispute. */
  function Resolved(b: Book, admin: Text, outcome: DisputeOutcome, reason: string, given: Option<Text>,
                    now: int): Book
  {
    var b1 := Transition(b, if outcome == ReleaseToSeller then RELEASED else CANCELLED, admin, "admin", "admin",
                         DisputeResolved(outcome, given), Present(reason), now);
    match outcome
    case ReleaseToSeller => WithDisputeRelease(b1, b.row, admin, reason, ResolvedReference(b.id, given), now)
    case RefundBuyer => WithRefund(b1, b.row, given, now)
    case _ => b1
  }

  function ResolveDispute(b: Book, admin: Text, outcome: DisputeOutcome, reason: string, reference: string,
                          now: int): Outcome
  {
    if b.row.status != DISPUTED then Rejected(CannotBeResolvedFrom(b.row.status))
    else if outcome == ReleaseToSeller && b.row.currency == NAIRA && Blank(reference)
    then Rejected(PayoutReferenceRequired)
    else Done(Resolved(b, admin, outcome, reason, Present(reference), now))
  }

  function PendingPayoutTxn(row: EscrowRow, provider: string, status: string, amount: real, reference: string,
                            now: int): Txn
  {
    Txn(provider, ReleaseTxn, "payout_" + status, Present(reference), amount, row.currency, None, Some(NO_DATES), now)
  }

  function PendingPayoutEvent(row: EscrowRow, admin: Text, message: string, now: int): Event {
    Event(admin, "admin", "admin", Some(row.status), Some(row.status), Annotation("payout_not_finalized"),
          Present(message), now)
  }

  /** A payout the provider has not finished: a release row and a remark, but no release. */
  function RecordPayoutPending(b: Book, admin: Text, provider: string, status: string, amount: real, reference: string,
                               message: string, now: int): Book
  {
    WithEvent(WithTxn(b, PendingPayoutTxn(b.row, provider, status, amount, reference, now)),
              PendingPayoutEvent(b.row, admin, message, now))
  }

  function AnnotationEvent(row: EscrowRow, actor: Text, actorRole: string, channel: string, name: string,
                           withStatus: bool, reason: string, now: int): Event
  {
    var s := if withStatus then Some(row.status) else None;
    Event(actor, actorRole, channel, s, s, Annotation(name), Present(reason), now)
  }

  /** A remark in the log: the routes and webhooks write it either with the status they read or with none. */
  function AddAnnotation(b: Book, actor: Text, actorRole: string, channel: string, name: string, withStatus: bool,
                         reason: string, now: int): Book
  {
    WithEvent(b, AnnotationEvent(b.row, actor, actorRole, channel, name, withStatus, reason, now))
  }

  function Apply(b: Book, c: Command): Outcome {
    match c
    case Attach(i, now) => Done(AttachPayment(b, i, now))
    case Accept(seller, invited, user, now) => AcceptEscrow(b, seller, invited, user, now)
    case Fund(reference, receipt, now) => if Carries(b, reference) then Done(MarkFunded(b, reference, receipt, now))
      else Done(b)
    case Expire(now) => Done(ExpirePendingPayment(b, now))
    case Remind(now) => Done(MarkReminderSent(b, now))
    case Review(finding, now) => Done(MarkReviewRequired(b, finding, now))
    case RequestRelease(actor, directory, channel, payout, t, now) => RequestReleaseOf(b, actor, directory, channel,
        payout, t, now)
    case Complete(actor, directory, channel, now) => CompleteEscrow(b, actor, directory, channel, now)
    case Deliver(actor, channel, summary, days, now) => MarkDelivered(b, actor, channel, summary, days, now)
    case Cancel(actor, directory, channel, now) => CancelUnfunded(b, actor, directory, channel, now)
    case Approve(admin, release, payout, now) => ApproveManualRelease(b, admin, release, payout, now)
    case Dispute(actor, directory, channel, reason, now) => MarkDisputed(b, actor, directory, channel, reason, now)
    case Resolve(admin, outcome, reason, reference, now) => ResolveDispute(b, admin, outcome, reason, reference, now)
    case PayoutPending(admin, provider, status, amount, reference, message, now) =>
      Done(RecordPayoutPending(b, admin, provider, status, amount, reference, message, now))
    case Annotate(actor, role, channel, name, withStatus, reason, now) => Done(AddAnnotation(b, actor, role, channel,
        name, withStatus, reason, now))
  }

  /** The books after a call: a throwing call changes nothing. */
  function After(b: Book, c: Command): Book {
    match Apply(b, c)
    case Done(b') => b'
    case Rejected(_) => b
  }

  /** What the callers of the two unguarded writers see to: a payment is attached with status
      `PENDING_PAYMENT` or none, and a reminder is recorded while the escrow is pending payment. */
  predicate Disciplined(b: Book, c: Command) {
    match c
    case Attach(i, _) => i.status in {None, Some(PENDING_PAYMENT)}
    case Remind(_) => b.row.status == PENDING_PAYMENT
    case _ => true
  }

  /** The books at the end of a run, one command after another. */
  function Run(b: Book, cs: seq<Command>): Book {
    if cs == [] then b else After(Run(b, cs[..|cs| - 1]), cs[|cs| - 1])
  }

  ghost predicate DisciplinedRun(b: Book, cs: seq<Command>) {
    cs == [] || (DisciplinedRun(b, cs[..|cs| - 1]) && Disciplined(Run(b, cs[..|cs| - 1]), cs[|cs| - 1]))
  }
}
