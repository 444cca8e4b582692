/**
 * src/actions/sheet.ts: the server-action reader, which answers every
 * failure with the empty listing, and the address of the mail-sent write.
 */
module SheetActions {
  import opened Wrappers
  import opened Text
  import opened Utils
  import opened AppConfig
  import opened Addresses
  import opened Rows

  /** The header names this copy reads: "email address", "contact number", "utr number" and "desk". */
  const ActionKeys: HeaderKeys := HeaderKeys("email address", "contact number", "utr number", Some("desk"))

  /** `readEntries`: the parsed grid, or `{ entries: [], total: 0 }` when anything fails. */
  function ReadEntries(cfg: Config, fetch: Fetch): (r: Listing)
    ensures r.total == |r.entries|
    ensures !EnvReady(cfg) || fetch.FetchFailed? ==> r == Listing([], 0)
    ensures EnvReady(cfg) && fetch.Fetched? ==> r == ParseGrid(ActionKeys, fetch.values)
  {
    if !EnvReady(cfg) then Listing([], 0)
    else match fetch
      case FetchFailed(_) => Listing([], 0)
      case Fetched(values) => ParseGrid(ActionKeys, values)
  }

  /** A failure cannot be told apart from an empty sheet. */
  lemma FailureLooksEmpty(cfg: Config, cfg2: Config, message: string)
    requires EnvReady(cfg2)
    ensures ReadEntries(cfg, FetchFailed(message)) == ReadEntries(cfg2, Fetched([]))
  {
  }

  /**
   * The records of this reader take e-mail, phone, transaction id and desk
   * from "email address", "contact number", "utr number" and "desk" (an
   * absent header reads as "").
   */
  lemma ReadEntriesFields(cfg: Config, values: seq<seq<string>>, i: nat)
    requires EnvReady(cfg) && values != [] && i < |values| - 1
    ensures var hm, row := GridHeaders(values), values[i + 1];
      var e := ReadEntries(cfg, Fetched(values)).entries[i];
      && e.email == Field(hm, row, "email address")
      && e.phoneNumber == Field(hm, row, "contact number")
      && e.transactionId == Field(hm, row, "utr number")
      && e.desk == Some(Field(hm, row, "desk"))
      && e.rowNumber == i + 2
  {
    assert ReadEntries(cfg, Fetched(values)).entries[i] == ParseRow(ActionKeys, GridHeaders(values), values[i + 1], i);
  }

  /** `${n}` for any integer, with a leading minus sign for a negative one. */
  function IntText(n: int): string {
    if n < 0 then "-" + Decimal(-n) else Decimal(n)
  }

  /** What `updateMailSentStatus` sends: the range and the value written there. */
  datatype MailSentWrite = MailSentWrite(range: string, value: bool)

  /** The range of the mail-sent write: always column A of the "Boys" sheet, whatever range is configured. */
  function MailSentRange(rowNumber: int): string {
    "Boys!A" + IntText(rowNumber)
  }

  /**
   * `updateMailSentStatus`: the write it requests, or `None` when a
   * credential is missing and `getSheetsClient` throws (that error reaches
   * the caller).
   */
  function UpdateMailSentStatus(cfg: Config, rowNumber: int, value: bool): (w: Option<MailSentWrite>)
    ensures w.None? <==> !EnvReady(cfg)
    ensures w.Some? ==> w.value.value == value
  {
    if EnvReady(cfg) then Some(MailSentWrite(MailSentRange(rowNumber), value)) else None
  }

  /**
   * For a sheet row number, the mail-sent range names cell A<row> of the
   * "Boys" sheet and no other cell.
   */
  lemma MailSentTarget(cfg: Config, rowNumber: nat, value: bool)
    requires EnvReady(cfg)
    ensures ParseCellRef(UpdateMailSentStatus(cfg, rowNumber, value).value.range) == Some(Target("Boys", 0, rowNumber))
  {
    assert ColumnLetters(0) == "A" by { ColumnLettersExamples(); }
    assert MailSentRange(rowNumber) == CellRef("Boys", A1(0, rowNumber));
    CellRefRoundTrip("Boys", 0, rowNumber);
  }
}
