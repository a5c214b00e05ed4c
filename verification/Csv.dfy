/** The reconciliation export, and a reader for it by the rules of section 2 of RFC 4180,
    with a line feed as the record break, which is what the export prints. */
module Csv {
  import opened Wrappers

  // ----- the printer -----

  /** A cell's value: absent, a value already rendered as text, or a list. */
  datatype Cell = Null | Text(text: string) | Items(items: seq<string>)

  function JoinWith(separator: string, parts: seq<string>): string {
    if parts == [] then ""
    else if |parts| == 1 then parts[0]
    else parts[0] + separator + JoinWith(separator, parts[1..])
  }

  function TextOf(c: Cell): string {
    match c
    case Null => ""
    case Text(t) => t
    case Items(items) => JoinWith("|", items)
  }

  /** `replace(/"/g, '""')`. */
  function Doubled(s: string): string {
    if s == "" then "" else (if s[0] == '"' then "\"\"" else [s[0]]) + Doubled(s[1..])
  }

  function CsvEscape(text: string): string {
    "\"" + Doubled(text) + "\""
  }

  function PrintRecord(fields: seq<string>): string {
    JoinWith(",", seq(|fields|, i requires 0 <= i < |fields| => CsvEscape(fields[i])))
  }

  function Print(records: seq<seq<string>>): string {
    JoinWith("\n", seq(|records|, i requires 0 <= i < |records| => PrintRecord(records[i])))
  }

  // ----- the reader -----

  /** The text up to the closing quote, a doubled quote being one quote, and what follows. */
  function QuotedText(s: string): (r: Option<(string, string)>)
    ensures r.Some? ==> |r.value.1| < |s|
  {
    if s == "" then None
    else if s[0] != '"' then Prepend(s[0], QuotedText(s[1..]))
    else if |s| > 1 && s[1] == '"' then Prepend('"', QuotedText(s[2..]))
    else Some(("", s[1..]))
  }

  function Prepend(c: char, r: Option<(string, string)>): Option<(string, string)> {
    if r.None? then None else Some(([c] + r.value.0, r.value.1))
  }

  /** An unquoted field runs to the next separator and holds no quote. */
  function BareText(s: string): (r: Option<(string, string)>)
    ensures r.Some? ==> |r.value.1| <= |s|
  {
    if s == "" || s[0] == ',' || s[0] == '\n' then Some(("", s))
    else if s[0] == '"' then None
    else Prepend(s[0], BareText(s[1..]))
  }

  function Field(s: string): (r: Option<(string, string)>)
    ensures r.Some? ==> |r.value.1| <= |s|
  {
    if s != "" && s[0] == '"' then QuotedText(s[1..]) else BareText(s)
  }

  /** Every record of a text, every field of a record. */
  function Records(s: string): (r: Option<seq<seq<string>>>)
    ensures r.Some? ==> r.value != []
    decreases |s|
  {
    var field := Field(s);
    if field.None? then None
    else
      var (text, rest) := field.value;
      if rest == "" then Some([[text]])
      else if rest[0] != ',' && rest[0] != '\n' then None
      else
        var more := Records(rest[1..]);
        if more.None? then None
        else if rest[0] == ',' then Some([[text] + more.value[0]] + more.value[1..])
        else Some([[text]] + more.value)
  }

  // ----- the round trip -----

  predicate Separated(rest: string) {
    rest == "" || rest[0] != '"'
  }

  lemma {:induction false} QuotedTextReads(text: string, rest: string)
    requires Separated(rest)
    ensures QuotedText(Doubled(text) + "\"" + rest) == Some((text, rest))
  {
    var s := Doubled(text) + "\"" + rest;
    if text == "" {
      assert s == "\"" + rest && s[1..] == rest;
    } else {
      QuotedTextReads(text[1..], rest);
      var tail := Doubled(text[1..]) + "\"" + rest;
      assert text == [text[0]] + text[1..];
      if text[0] == '"' {
        assert s == "\"\"" + tail && s[2..] == tail;
      } else {
        assert s == [text[0]] + tail && s[1..] == tail;
      }
    }
  }

  lemma FieldReads(text: string, rest: string)
    requires Separated(rest)
    ensures Field(CsvEscape(text) + rest) == Some((text, rest))
  {
    var s := CsvEscape(text) + rest;
    assert s[1..] == Doubled(text) + "\"" + rest;
    QuotedTextReads(text, rest);
  }

  /** Printing a record of several fields prints the first, a comma, and the others. */
  lemma PrintRecordSplits(fields: seq<string>)
    requires |fields| > 1
    ensures PrintRecord(fields) == CsvEscape(fields[0]) + "," + PrintRecord(fields[1..])
  {
    var parts := seq(|fields|, i requires 0 <= i < |fields| => CsvEscape(fields[i]));
    assert parts[1..] == seq(|fields| - 1, i requires 0 <= i < |fields| - 1 => CsvEscape(fields[1..][i]));
  }

  lemma PrintSplits(records: seq<seq<string>>)
    requires |records| > 1
    ensures Print(records) == PrintRecord(records[0]) + "\n" + Print(records[1..])
  {
    var parts := seq(|records|, i requires 0 <= i < |records| => PrintRecord(records[i]));
    assert parts[1..] == seq(|records| - 1, i requires 0 <= i < |records| - 1 => PrintRecord(records[1..][i]));
  }

  /** What the reader makes of a field, depending on what follows it. */
  lemma FieldBeforeComma(text: string, tail: string)
    requires Records(tail).Some?
    ensures Records(CsvEscape(text) + ("," + tail)) ==
              Some([[text] + Records(tail).value[0]] + Records(tail).value[1..])
  {
    FieldReads(text, "," + tail);
    assert ("," + tail)[1..] == tail;
  }

  /** The records of a text that goes on after a record. */
  function Following(rest: string): seq<seq<string>> {
    if rest != "" && Records(rest[1..]).Some? then Records(rest[1..]).value else []
  }

  predicate Ends(rest: string) {
    rest == "" || (rest[0] == '\n' && Records(rest[1..]).Some?)
  }

  lemma LastField(text: string, rest: string)
    requires Ends(rest)
    ensures Records(CsvEscape(text) + rest) == Some([[text]] + Following(rest))
  {
    FieldReads(text, rest);
    assert [[text]] + [] == [[text]];
  }

  lemma Regroup(fields: seq<string>, more: seq<seq<string>>)
    requires |fields| > 1
    ensures var v := [fields[1..]] + more; [[fields[0]] + v[0]] + v[1..] == [fields] + more
  {
    assert ([fields[1..]] + more)[1..] == more;
    assert fields == [fields[0]] + fields[1..];
  }

  lemma PrintedInFront(fields: seq<string>, rest: string)
    requires |fields| > 1
    ensures PrintRecord(fields) + rest == CsvEscape(fields[0]) + ("," + (PrintRecord(fields[1..]) + rest))
  {
    PrintRecordSplits(fields);
  }

  /** A printed record, at the end of a text or before a record break, is read back whole. */
  lemma {:induction false} RecordReads(fields: seq<string>, rest: string)
    requires fields != [] && Ends(rest)
    ensures Records(PrintRecord(fields) + rest) == Some([fields] + Following(rest))
    decreases |fields|
  {
    if |fields| == 1 {
      LastField(fields[0], rest);
      assert fields == [fields[0]];
    } else {
      RecordReads(fields[1..], rest);
      PrintedInFront(fields, rest);
      FieldBeforeComma(fields[0], PrintRecord(fields[1..]) + rest);
      Regroup(fields, Following(rest));
    }
  }

  /** Reading what was printed gives back every record and every field, whatever they contain. */
  lemma {:induction false} RoundTrip(records: seq<seq<string>>)
    requires records != [] && forall i :: 0 <= i < |records| ==> records[i] != []
    ensures Records(Print(records)) == Some(records)
    decreases |records|
  {
    if |records| == 1 {
      RecordReads(records[0], "");
      assert PrintRecord(records[0]) + "" == PrintRecord(records[0]);
      assert records == [records[0]] + [];
    } else {
      RoundTrip(records[1..]);
      PrintSplits(records);
      var rest := "\n" + Print(records[1..]);
      assert rest[1..] == Print(records[1..]);
      RecordReads(records[0], rest);
      assert Following(rest) == records[1..];
      assert Print(records) == PrintRecord(records[0]) + rest;
      assert records == [records[0]] + records[1..];
    }
  }

  // ----- the reconciliation export -----

  datatype ReconciliationRow = ReconciliationRow(
    escrowId: Cell, buyer: Cell, seller: Cell, expectedAmount: Cell, receivedAmount: Cell,
    platformFeeAmount: Cell, sellerNetAmount: Cell, amountSource: Cell, currency: Cell,
    paymentReference: Cell, paymentProvider: Cell, paymentCheckedAt: Cell, payoutReference: Cell,
    payoutApprover: Cell, releaseTimestamp: Cell, payoutBankName: Cell, payoutAccountNumber: Cell,
    resolvedAccountName: Cell, nameMatchLevel: Cell, complianceRiskScore: Cell, complianceRiskLevel: Cell,
    complianceRiskReasons: Cell, reconciliationRiskLevel: Cell, riskLevel: Cell, status: Cell, flags: Cell)

  const HEADERS := [
    "escrow ID", "buyer", "seller", "expected amount", "received amount", "platform fee", "seller net payout",
    "amount source", "currency", "payment reference", "payment provider", "payment status", "settlement reference",
    "settlement amount", "settlement provider fee", "settlement received at", "payout reference", "release approver",
    "release timestamp", "payout bank", "payout account", "resolved account name", "name match",
    "compliance risk score", "compliance risk level", "compliance risk reasons", "reconciliation risk level",
    "risk level", "status", "flags"]

  function Cells(r: ReconciliationRow): seq<Cell> {
    [r.escrowId, r.buyer, r.seller, r.expectedAmount, r.receivedAmount, r.platformFeeAmount, r.sellerNetAmount,
     r.amountSource, r.currency, r.paymentReference, r.paymentProvider,
     Text(if r.paymentReference in {Null, Text("")} then "pending" else "success"), r.paymentReference,
     if r.receivedAmount == Null then r.expectedAmount else r.receivedAmount, r.platformFeeAmount, r.paymentCheckedAt,
     r.payoutReference, r.payoutApprover, r.releaseTimestamp, r.payoutBankName, r.payoutAccountNumber,
       r.resolvedAccountName,
     r.nameMatchLevel, r.complianceRiskScore, r.complianceRiskLevel, r.complianceRiskReasons, r.reconciliationRiskLevel,
     r.riskLevel, r.status, r.flags]
  }

  function RowTexts(r: ReconciliationRow): seq<string> {
    var cells := Cells(r);
    seq(|cells|, i requires 0 <= i < |cells| => TextOf(cells[i]))
  }

  function ReconciliationRecords(rows: seq<ReconciliationRow>): seq<seq<string>> {
    [HEADERS] + seq(|rows|, i requires 0 <= i < |rows| => RowTexts(rows[i]))
  }

  function ReconciliationRowsToCsv(rows: seq<ReconciliationRow>): string {
    Print(ReconciliationRecords(rows))
  }

  lemma RowWidth(r: ReconciliationRow)
    ensures |RowTexts(r)| == |HEADERS| == 30
  {
  }

  /** Every record of the export has one field per header. */
  lemma RecordsAreWide(rows: seq<ReconciliationRow>, i: nat)
    requires i <= |rows|
    ensures |ReconciliationRecords(rows)| == |rows| + 1
    ensures |ReconciliationRecords(rows)[i]| == 30
    ensures ReconciliationRecords(rows)[i] == if i == 0 then HEADERS else RowTexts(rows[i - 1])
  {
    if i > 0 {
      RowWidth(rows[i - 1]);
    }
  }

  /** A reader of the export recovers the header and, row by row, the text of all thirty cells. */
  lemma {:induction false} ExportReadsBack(rows: seq<ReconciliationRow>)
    ensures var read := Records(ReconciliationRowsToCsv(rows));
            && read.Some? && |read.value| == |rows| + 1
            && (forall i :: 0 <= i <= |rows| ==>
                  |read.value[i]| == 30 && read.value[i] == if i == 0 then HEADERS else RowTexts(rows[i - 1]))
  {
    var records := ReconciliationRecords(rows);
    forall i | 0 <= i < |records| ensures |records[i]| == 30 {
      RecordsAreWide(rows, i);
    }
    forall i | 0 <= i < |records| ensures records[i] == if i == 0 then HEADERS else RowTexts(rows[i - 1]) {
      RecordsAreWide(rows, i);
    }
    assert forall i :: 0 <= i < |records| ==> records[i] != [];
    RoundTrip(records);
  }

  /** The column at `i` is headed so, and shows that cell. */
  predicate Shows(r: ReconciliationRow, i: nat, header: string, cell: Cell) {
    i < 30 && |HEADERS| == |RowTexts(r)| == 30 && HEADERS[i] == header && RowTexts(r)[i] == TextOf(cell)
  }

  /** Which header stands over which field: the parties and the currency. */
  lemma PartyColumns(r: ReconciliationRow)
    ensures Shows(r, 1, "buyer", r.buyer) && Shows(r, 2, "seller", r.seller) && Shows(r, 8, "currency", r.currency)
  {
  }

  /** Where the escrow stands. */
  lemma StateColumns(r: ReconciliationRow)
    ensures Shows(r, 0, "escrow ID", r.escrowId)
    ensures Shows(r, 28, "status", r.status) && Shows(r, 29, "flags", r.flags)
  {
  }

  /** The amounts. */
  lemma AmountColumns(r: ReconciliationRow)
    ensures Shows(r, 3, "expected amount", r.expectedAmount) && Shows(r, 4, "received amount", r.receivedAmount)
    ensures Shows(r, 7, "amount source", r.amountSource)
  {
  }

  /** The fee and the net. */
  lemma FeeColumns(r: ReconciliationRow)
    ensures Shows(r, 5, "platform fee", r.platformFeeAmount) && Shows(r, 6, "seller net payout", r.sellerNetAmount)
    ensures Shows(r, 14, "settlement provider fee", r.platformFeeAmount)
  {
  }

  /** The payment. */
  lemma PaymentColumns(r: ReconciliationRow)
    ensures Shows(r, 9, "payment reference", r.paymentReference)
    ensures Shows(r, 10, "payment provider", r.paymentProvider)
    ensures Shows(r, 15, "settlement received at", r.paymentCheckedAt)
  {
  }

  /** The payout. */
  lemma PayoutColumns(r: ReconciliationRow)
    ensures Shows(r, 16, "payout reference", r.payoutReference) && Shows(r, 17, "release approver", r.payoutApprover)
    ensures Shows(r, 18, "release timestamp", r.releaseTimestamp) && Shows(r, 19, "payout bank", r.payoutBankName)
  {
  }

  /** The account. */
  lemma AccountColumns(r: ReconciliationRow)
    ensures Shows(r, 20, "payout account", r.payoutAccountNumber)
    ensures Shows(r, 21, "resolved account name", r.resolvedAccountName)
    ensures Shows(r, 22, "name match", r.nameMatchLevel)
  {
  }

  /** The risk. */
  lemma RiskColumns(r: ReconciliationRow)
    ensures Shows(r, 23, "compliance risk score", r.complianceRiskScore)
    ensures Shows(r, 24, "compliance risk level", r.complianceRiskLevel)
    ensures Shows(r, 25, "compliance risk reasons", r.complianceRiskReasons)
    ensures Shows(r, 26, "reconciliation risk level", r.reconciliationRiskLevel)
    ensures Shows(r, 27, "risk level", r.riskLevel)
  {
  }

  /** A list is shown with bars between its items, an absent value as nothing. */
  lemma TextOfCells(text: string, items: seq<string>)
    ensures TextOf(Null) == "" && TextOf(Text(text)) == text && TextOf(Items([text])) == text
    ensures items != [] ==> TextOf(Items([text] + items)) == text + "|" + TextOf(Items(items))
  {
    assert items != [] ==> ([text] + items)[1..] == items;
  }

  /** The derived columns: the payment status tells whether there is a payment reference, the settlement
      reference repeats it, and the settlement amount falls back to the expected amount. */
  lemma DerivedColumns(r: ReconciliationRow)
    ensures var t := RowTexts(r);
            && |t| == |HEADERS|
            && HEADERS[9] == "payment reference" && HEADERS[11] == "payment status"
               && HEADERS[12] == "settlement reference"
            && HEADERS[3] == "expected amount" && HEADERS[4] == "received amount" && HEADERS[13] == "settlement amount"
            && t[12] == t[9]
            && (r.paymentReference.Text? ==> (t[11] == "success" <==> t[9] != ""))
            && (r.paymentReference == Null ==> t[11] == "pending")
            && (r.receivedAmount == Null ==> t[13] == t[3])
            && (r.receivedAmount != Null ==> t[13] == t[4])
  {
    assert "success"[0] != "pending"[0];
  }
}
