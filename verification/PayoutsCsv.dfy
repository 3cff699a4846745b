/**
 The CSV export of src/modules/admin/admin-payouts.service.ts (lines 1028-1076), against a
 reader that follows section 2 of RFC 4180 with line feeds as line ends.
 */
module PayoutsCsv {
  import opened Wrappers

  // ----- the printer

  /** Some columns are printed as they are, the others in quotes with quotes doubled. */
  datatype Field = Raw(text: string) | Quoted(text: string)

  /** `replace(/"/g, '""')` */
  function Escape(s: string): string {
    if s == "" then "" else (if s[0] == '"' then "\"\"" else [s[0]]) + Escape(s[1..])
  }

  function ShowField(f: Field): string {
    match f
    case Raw(text) => text
    case Quoted(text) => "\"" + Escape(text) + "\""
  }

  /** `join(',')` */
  function ShowRow(row: seq<Field>): string {
    if row == [] then ""
    else if |row| == 1 then ShowField(row[0])
    else ShowField(row[0]) + "," + ShowRow(row[1..])
  }

  /** `join('\n')` */
  function ShowRows(rows: seq<seq<Field>>): string {
    if rows == [] then ""
    else if |rows| == 1 then ShowRow(rows[0])
    else ShowRow(rows[0]) + "\n" + ShowRows(rows[1..])
  }

  // ----- the reader

  predicate Special(c: char) {
    c == ',' || c == '"' || c == '\n' || c == '\r'
  }

  predicate Plain(s: string) {
    forall i :: 0 <= i < |s| ==> !Special(s[i])
  }

  predicate AtDelimiter(s: string) {
    s == "" || s[0] == ',' || s[0] == '\n'
  }

  datatype Cut = Cut(text: string, rest: string)

  /** A field without quotes, up to the next delimiter. */
  function ReadPlain(s: string): (r: Option<Cut>)
    ensures r.Some? ==> Plain(r.value.text) && |r.value.rest| <= |s| && AtDelimiter(r.value.rest)
  {
    if AtDelimiter(s) then Some(Cut("", s))
    else if Special(s[0]) then None
    else
      match ReadPlain(s[1..])
      case None => None
      case Some(cut) => Some(Cut([s[0]] + cut.text, cut.rest))
  }

  /** The inside of a quoted field, up to and with the closing quote. */
  function ReadQuoted(s: string): (r: Option<Cut>)
    ensures r.Some? ==> |r.value.rest| <= |s|
  {
    if s == "" then None
    else if s[0] != '"' then
      match ReadQuoted(s[1..])
      case None => None
      case Some(cut) => Some(Cut([s[0]] + cut.text, cut.rest))
    else if |s| > 1 && s[1] == '"' then
      match ReadQuoted(s[2..])
      case None => None
      case Some(cut) => Some(Cut("\"" + cut.text, cut.rest))
    else Some(Cut("", s[1..]))
  }

  function ReadField(s: string): (r: Option<Cut>)
    ensures r.Some? ==> |r.value.rest| <= |s| && AtDelimiter(r.value.rest)
  {
    if s != "" && s[0] == '"' then
      var r := ReadQuoted(s[1..]);
      if r.Some? && AtDelimiter(r.value.rest) then r else None
    else ReadPlain(s)
  }

  /** The records of a file; the last line end is optional. */
  function Read(s: string): (r: Option<seq<seq<string>>>)
    ensures r.Some? ==> |r.value| > 0 && |r.value[0]| > 0
    decreases |s|
  {
    match ReadField(s)
    case None => None
    case Some(cut) =>
      if cut.rest == "" || cut.rest == "\n" then Some([[cut.text]])
      else
        match Read(cut.rest[1..])
        case None => None
        case Some(rows) =>
          if cut.rest[0] == ',' then Some([[cut.text] + rows[0]] + rows[1..])
          else Some([[cut.text]] + rows)
  }

  // ----- reading back

  function Texts(row: seq<Field>): (texts: seq<string>)
    ensures |texts| == |row|
  {
    seq(|row|, i requires 0 <= i < |row| => row[i].text)
  }

  function AllTexts(rows: seq<seq<Field>>): (texts: seq<seq<string>>)
    ensures |texts| == |rows|
  {
    seq(|rows|, i requires 0 <= i < |rows| => Texts(rows[i]))
  }

  predicate Clean(f: Field) {
    f.Raw? ==> Plain(f.text)
  }

  predicate CleanRow(row: seq<Field>) {
    forall i :: 0 <= i < |row| ==> Clean(row[i])
  }

  predicate CleanRows(rows: seq<seq<Field>>) {
    forall i :: 0 <= i < |rows| ==> CleanRow(rows[i])
  }

  lemma {:induction false} ReadPlainText(text: string, rest: string)
    requires Plain(text) && AtDelimiter(rest)
    ensures ReadPlain(text + rest) == Some(Cut(text, rest))
  {
    var s := text + rest;
    if text == "" {
      assert s == rest;
    } else {
      ReadPlainText(text[1..], rest);
      assert s[1..] == text[1..] + rest;
      assert !Special(text[0]);
      assert text == [text[0]] + text[1..];
    }
  }

  lemma {:induction false} ReadEscaped(text: string, rest: string)
    requires AtDelimiter(rest)
    ensures ReadQuoted(Escape(text) + "\"" + rest) == Some(Cut(text, rest))
  {
    if text == "" {
    } else {
      var first := if text[0] == '"' then "\"\"" else [text[0]];
      ReadEscaped(text[1..], rest);
      EscapeGoesOn(first, Escape(text[1..]), rest);
      assert text == [text[0]] + text[1..];
    }
  }

  lemma EscapeGoesOn(first: string, escaped: string, rest: string)
    ensures first + escaped + "\"" + rest == first + (escaped + "\"" + rest)
  {
  }

  lemma ReadCleanField(f: Field, rest: string)
    requires Clean(f) && AtDelimiter(rest)
    ensures ReadField(ShowField(f) + rest) == Some(Cut(f.text, rest))
  {
    if f.Raw? {
      ReadPlainText(f.text, rest);
    } else {
      var inside := Escape(f.text) + "\"" + rest;
      ReadEscaped(f.text, rest);
      OpeningQuote(inside);
      assert ShowField(f) + rest == "\"" + inside;
    }
  }

  lemma OpeningQuote(inside: string)
    requires ReadQuoted(inside).Some? && AtDelimiter(ReadQuoted(inside).value.rest)
    ensures ReadField("\"" + inside) == ReadQuoted(inside)
  {
    assert ("\"" + inside)[1..] == inside;
  }

  /** The quotes a text begins with. */
  function LeadingQuotes(s: string): nat {
    if s == "" || s[0] != '"' then 0 else 1 + LeadingQuotes(s[1..])
  }

  lemma {:induction false} QuotesAreDoubled(s: string)
    requires ReadQuoted(s).Some?
    ensures LeadingQuotes(s) >= 2 * LeadingQuotes(ReadQuoted(s).value.text)
    decreases |s|
  {
    if s[0] != '"' {
      assert ReadQuoted(s).value.text[0] == s[0];
    } else if |s| > 1 && s[1] == '"' {
      QuotesAreDoubled(s[2..]);
      assert s[1..][1..] == s[2..];
      var text := ReadQuoted(s).value.text;
      assert text[1..] == ReadQuoted(s[2..]).value.text;
      assert LeadingQuotes(s) == 2 + LeadingQuotes(s[2..]);
    }
  }

  lemma {:induction false} QuotesStop(text: string, rest: string)
    requires AtDelimiter(rest)
    ensures LeadingQuotes(text + rest) == LeadingQuotes(text)
  {
    if text == "" {
      assert text + rest == rest;
    } else if text[0] == '"' {
      QuotesStop(text[1..], rest);
      assert (text + rest)[1..] == text[1..] + rest;
    }
  }

  /** A raw text with a special character is never read back as itself. */
  lemma DirtyFieldIsLost(text: string, rest: string)
    requires !Plain(text) && AtDelimiter(rest)
    ensures ReadField(text + rest).Some? ==> ReadField(text + rest).value.text != text
  {
    var s := text + rest;
    if s[0] == '"' && ReadField(s).Some? && ReadField(s).value.text == text {
      QuotesAreDoubled(s[1..]);
      assert s[1..] == text[1..] + rest;
      QuotesStop(text[1..], rest);
    }
  }

  /** What follows the fields of a row. */
  function Tail(rows: seq<seq<Field>>): string {
    if rows == [] then "" else "\n" + ShowRows(rows)
  }

  ghost predicate Wide(rows: seq<seq<Field>>) {
    forall i :: 0 <= i < |rows| ==> |rows[i]| >= 2
  }

  lemma ShowIsNotEmpty(rows: seq<seq<Field>>)
    requires rows != [] && Wide(rows)
    ensures ShowRows(rows) != ""
    ensures ShowRows(rows) == ShowRow(rows[0]) + Tail(rows[1..])
  {
    assert |rows[0]| >= 2;
    if |rows| == 1 {
      assert ShowRow(rows[0]) + "" == ShowRow(rows[0]);
    } else {
      assert ShowRow(rows[0]) + "\n" + ShowRows(rows[1..]) == ShowRow(rows[0]) + ("\n" + ShowRows(rows[1..]));
    }
  }

  lemma ReadStartsWithField(s: string)
    ensures Read(s).Some? ==> ReadField(s).Some? && Read(s).value[0][0] == ReadField(s).value.text
  {
  }

  lemma ReadAcrossComma(s: string, text: string, more: string, row: seq<string>, rows: seq<seq<string>>)
    requires ReadField(s) == Some(Cut(text, "," + more))
    ensures Read(s) == Some([[text] + row] + rows) <==> Read(more) == Some([row] + rows)
  {
    var rest := "," + more;
    assert rest[1..] == more && rest != "\n";
    if Read(more).Some? {
      var read := Read(more).value;
      assert read == [read[0]] + read[1..];
      var here := [[text] + read[0]] + read[1..];
      assert Read(s) == Some(here);
      if here == [[text] + row] + rows {
        assert [text] + read[0] == here[0] == [text] + row;
        assert read[0] == ([text] + read[0])[1..] == row;
        assert read[1..] == here[1..] == rows;
      }
      if read == [row] + rows {
        assert read[0] == row && read[1..] == rows;
      }
    }
  }

  lemma ReadAcrossLine(s: string, text: string, more: string, rows: seq<seq<string>>)
    requires ReadField(s) == Some(Cut(text, "\n" + more)) && more != ""
    ensures Read(s) == Some([[text]] + rows) <==> Read(more) == Some(rows)
  {
    var rest := "\n" + more;
    assert rest[1..] == more && |rest| > 1;
    if Read(more).Some? {
      var here := [[text]] + Read(more).value;
      assert here[1..] == Read(more).value;
      assert ([[text]] + rows)[1..] == rows;
    }
  }

  lemma DirtyRow(row: seq<Field>, rows: seq<seq<Field>>, rest: string)
    requires row != [] && !Clean(row[0]) && AtDelimiter(rest)
    ensures Read(ShowField(row[0]) + rest) != Some([Texts(row)] + AllTexts(rows))
  {
    DirtyFieldIsLost(row[0].text, rest);
    ReadStartsWithField(ShowField(row[0]) + rest);
    assert ([Texts(row)] + AllTexts(rows))[0][0] == row[0].text;
  }

  /** Reading the rest of a row and the rows after it gives back every text exactly when
      none of the raw ones has a special character. */
  lemma {:induction false} ReadFrom(row: seq<Field>, rows: seq<seq<Field>>)
    requires row != [] && Wide(rows)
    ensures Read(ShowRow(row) + Tail(rows)) == Some([Texts(row)] + AllTexts(rows))
       <==> CleanRow(row) && CleanRows(rows)
    decreases |rows|, |row|
  {
    ShowFirst(row, rows);
    if !Clean(row[0]) {
      DirtyRow(row, rows, AfterFirst(row, rows));
    } else if |row| > 1 {
      ReadFrom(row[1..], rows);
      FirstField(row, rows);
      RowStep(row, rows);
    } else {
      LastField(row, rows);
      if rows != [] {
        ReadFrom(rows[0], rows[1..]);
        RowsStep(row, rows);
      }
    }
  }

  function AfterFirst(row: seq<Field>, rows: seq<seq<Field>>): (rest: string)
    requires row != []
    ensures AtDelimiter(rest)
  {
    if |row| == 1 then Tail(rows) else "," + (ShowRow(row[1..]) + Tail(rows))
  }

  lemma ShowFirst(row: seq<Field>, rows: seq<seq<Field>>)
    requires row != []
    ensures ShowRow(row) + Tail(rows) == ShowField(row[0]) + AfterFirst(row, rows)
  {
  }

  lemma FirstField(row: seq<Field>, rows: seq<seq<Field>>)
    requires |row| > 1 && Clean(row[0])
    ensures Read(ShowField(row[0]) + AfterFirst(row, rows)) == Some([[row[0].text] + Texts(row[1..])] + AllTexts(rows))
       <==> Read(ShowRow(row[1..]) + Tail(rows)) == Some([Texts(row[1..])] + AllTexts(rows))
  {
    ReadCleanField(row[0], AfterFirst(row, rows));
    ReadAcrossComma(ShowField(row[0]) + AfterFirst(row, rows), row[0].text, ShowRow(row[1..]) + Tail(rows),
                    Texts(row[1..]), AllTexts(rows));
  }

  lemma LastField(row: seq<Field>, rows: seq<seq<Field>>)
    requires |row| == 1 && Clean(row[0]) && Wide(rows)
    ensures var all := Read(ShowField(row[0]) + Tail(rows)) == Some([Texts(row)] + AllTexts(rows));
            if rows == [] then all
            else all <==> Read(ShowRow(rows[0]) + Tail(rows[1..])) == Some(AllTexts(rows))
  {
    ReadCleanField(row[0], Tail(rows));
    assert Texts(row) == [row[0].text];
    if rows == [] {
      assert [Texts(row)] + AllTexts(rows) == [[row[0].text]];
    } else {
      ShowIsNotEmpty(rows);
      ReadAcrossLine(ShowField(row[0]) + Tail(rows), row[0].text, ShowRows(rows), AllTexts(rows));
    }
  }

  lemma RowStep(row: seq<Field>, rows: seq<seq<Field>>)
    requires |row| > 1
    ensures [row[0].text] + Texts(row[1..]) == Texts(row)
    ensures CleanRow(row) <==> Clean(row[0]) && CleanRow(row[1..])
  {
    assert row == [row[0]] + row[1..];
  }

  lemma RowsStep(row: seq<Field>, rows: seq<seq<Field>>)
    requires |row| == 1 && rows != []
    ensures [Texts(rows[0])] + AllTexts(rows[1..]) == AllTexts(rows)
    ensures CleanRow(row) <==> Clean(row[0])
    ensures CleanRows(rows) <==> CleanRow(rows[0]) && CleanRows(rows[1..])
  {
    assert rows == [rows[0]] + rows[1..];
  }

  // ----- the export

  /** A payout as it is exported; the amount, the count and the dates already as text. */
  datatype Payout = Payout(
    id: string, batchId: string, organizationId: string, orgName: string, affiliateId: string,
    affiliateName: string, affiliateEmail: string, programName: string, amount: string, currency: string,
    status: string, gateway: string, disbursementAccount: string, providerReference: string,
    reconciliationStatus: string, commissionsCount: string, failureReason: string, createdAt: string,
    processedAt: string)

  const HEADERS := [
    "PayoutItemID", "BatchID", "OrganizationID", "OrganizationName", "AffiliateID", "AffiliateName",
    "AffiliateEmail", "ProgramName", "Amount", "Currency", "Status", "PaymentGateway",
    "DisbursementAccount", "ProviderReference", "ReconciliationStatus", "CommissionsCount",
    "FailureReason", "CreatedAt", "ProcessedAt"]

  function Header(): (row: seq<Field>)
    ensures |row| == 19
  {
    seq(|HEADERS|, i requires 0 <= i < |HEADERS| => Raw(HEADERS[i]))
  }

  function Row(p: Payout): (row: seq<Field>)
    ensures |row| == 19
  {
    [ Raw(p.id), Raw(p.batchId), Raw(p.organizationId), Quoted(p.orgName), Raw(p.affiliateId),
      Quoted(p.affiliateName), Quoted(p.affiliateEmail), Quoted(p.programName), Raw(p.amount), Raw(p.currency),
      Raw(p.status), Quoted(p.gateway), Quoted(p.disbursementAccount), Quoted(p.providerReference),
      Raw(p.reconciliationStatus), Raw(p.commissionsCount), Quoted(p.failureReason), Raw(p.createdAt),
      Raw(p.processedAt) ]
  }

  /** The columns of a payout in the order of the header. */
  function Record(p: Payout): (texts: seq<string>)
    ensures |texts| == |HEADERS|
  {
    [ p.id, p.batchId, p.organizationId, p.orgName, p.affiliateId, p.affiliateName, p.affiliateEmail,
      p.programName, p.amount, p.currency, p.status, p.gateway, p.disbursementAccount, p.providerReference,
      p.reconciliationStatus, p.commissionsCount, p.failureReason, p.createdAt, p.processedAt ]
  }

  function Records(payouts: seq<Payout>): (records: seq<seq<string>>)
    ensures |records| == |payouts|
  {
    seq(|payouts|, i requires 0 <= i < |payouts| => Record(payouts[i]))
  }

  lemma RowHoldsRecord(p: Payout)
    ensures Texts(Row(p)) == Record(p)
  {
  }

  lemma RowsHoldRecords(payouts: seq<Payout>)
    ensures AllTexts(Rows(payouts)) == Records(payouts)
  {
    forall i | 0 <= i < |payouts|
      ensures Texts(Rows(payouts)[i]) == Records(payouts)[i]
    {
      RowHoldsRecord(payouts[i]);
    }
  }

  function Rows(payouts: seq<Payout>): (rows: seq<seq<Field>>)
    ensures |rows| == |payouts|
  {
    seq(|payouts|, i requires 0 <= i < |payouts| => Row(payouts[i]))
  }

  function ExportPayoutsCsv(payouts: seq<Payout>): string {
    ShowRows([Header()] + Rows(payouts))
  }

  /** The columns that are printed without quotes. */
  predicate RawColumnsArePlain(p: Payout) {
    && Plain(p.id) && Plain(p.batchId) && Plain(p.organizationId) && Plain(p.affiliateId) && Plain(p.amount)
    && Plain(p.currency) && Plain(p.status) && Plain(p.reconciliationStatus) && Plain(p.commissionsCount)
    && Plain(p.createdAt) && Plain(p.processedAt)
  }

  lemma RowIsClean(p: Payout)
    ensures CleanRow(Row(p)) <==> RawColumnsArePlain(p)
  {
    var row := Row(p);
    if CleanRow(row) {
      assert Clean(row[0]) && Clean(row[1]) && Clean(row[2]) && Clean(row[4]) && Clean(row[8]) && Clean(row[9])
          && Clean(row[10]) && Clean(row[14]) && Clean(row[15]) && Clean(row[17]) && Clean(row[18]);
    }
  }

  /** What belongs under each heading. */
  function Under(heading: string, p: Payout): string {
    match heading
    case "PayoutItemID" => p.id
    case "BatchID" => p.batchId
    case "OrganizationID" => p.organizationId
    case "OrganizationName" => p.orgName
    case "AffiliateID" => p.affiliateId
    case "AffiliateName" => p.affiliateName
    case "AffiliateEmail" => p.affiliateEmail
    case "ProgramName" => p.programName
    case "Amount" => p.amount
    case "Currency" => p.currency
    case "Status" => p.status
    case "PaymentGateway" => p.gateway
    case "DisbursementAccount" => p.disbursementAccount
    case "ProviderReference" => p.providerReference
    case "ReconciliationStatus" => p.reconciliationStatus
    case "CommissionsCount" => p.commissionsCount
    case "FailureReason" => p.failureReason
    case "CreatedAt" => p.createdAt
    case "ProcessedAt" => p.processedAt
    case _ => ""
  }

  /** Every column of a payout stands under its heading. */
  lemma ColumnsMatchHeadings(p: Payout, i: nat)
    requires i < |HEADERS|
    ensures Record(p)[i] == Under(HEADERS[i], p)
  {
  }

  /** In an export with plain raw columns the cell of a payout under a heading is what belongs
      there. */
  lemma CellsReadBack(payouts: seq<Payout>, k: nat, i: nat)
    requires forall j :: 0 <= j < |payouts| ==> RawColumnsArePlain(payouts[j])
    requires k < |payouts| && i < |HEADERS|
    ensures var read := Read(ExportPayoutsCsv(payouts));
            && read.Some? && |read.value| == 1 + |payouts| && |read.value[0]| == |read.value[1 + k]| == |HEADERS|
            && read.value[0][i] == HEADERS[i] && read.value[1 + k][i] == Under(HEADERS[i], payouts[k])
  {
    ExportReadsBack(payouts);
    ColumnsMatchHeadings(payouts[k], i);
    assert ([HEADERS] + Records(payouts))[1 + k] == Record(payouts[k]);
  }

  /** The exported file reads back as the header and the original columns of every payout,
      whatever the quoted columns hold, exactly when the raw columns are plain text. */
  lemma ExportReadsBack(payouts: seq<Payout>)
    ensures Read(ExportPayoutsCsv(payouts)) == Some([HEADERS] + Records(payouts))
       <==> forall i :: 0 <= i < |payouts| ==> RawColumnsArePlain(payouts[i])
  {
    var rows := Rows(payouts);
    var all := [Header()] + rows;
    assert all[1..] == rows;
    RowsHoldRecords(payouts);
    ShowIsNotEmpty(all);
    ReadFrom(Header(), rows);
    assert Texts(Header()) == HEADERS;
    HeaderIsClean();
    forall i | 0 <= i < |payouts|
      ensures CleanRow(rows[i]) <==> RawColumnsArePlain(payouts[i])
    {
      RowIsClean(payouts[i]);
    }
    if CleanRows(rows) {
      assert forall i :: 0 <= i < |payouts| ==> CleanRow(rows[i]);
    }
  }

  lemma HeaderIsClean()
    ensures CleanRow(Header())
  {
    IdColumns();
    PartnerColumns();
    MoneyColumns();
    TransferColumns();
    StateColumns();
  }

  lemma IdColumns()
    ensures Plain("PayoutItemID") && Plain("BatchID") && Plain("OrganizationID") && Plain("OrganizationName")
  {
  }

  lemma PartnerColumns()
    ensures Plain("AffiliateID") && Plain("AffiliateName") && Plain("AffiliateEmail") && Plain("ProgramName")
  {
  }

  lemma MoneyColumns()
    ensures Plain("Amount") && Plain("Currency") && Plain("Status") && Plain("PaymentGateway")
  {
  }

  lemma TransferColumns()
    ensures Plain("DisbursementAccount") && Plain("ProviderReference")
    ensures Plain("ReconciliationStatus") && Plain("CommissionsCount")
  {
  }

  lemma StateColumns()
    ensures Plain("FailureReason") && Plain("CreatedAt") && Plain("ProcessedAt")
  {
  }
}
