/**
 * The configuration and record types of src/lib/config.ts, and the outcome
 * of the spreadsheet read (`sheets.spreadsheets.values.get`), which every
 * operation of the model takes as an input.
 */
module AppConfig {
  import opened Wrappers

  /** The `config` object; its values come from the environment. */
  datatype Config = Config(
    spreadsheetId: string,
    serviceAccountEmail: string,
    serviceAccountPrivateKey: string,
    range: string,
    useMock: bool,
    pageSize: int)

  /** `getSheetsClient` / `isEnvReady`: all three credentials are non-empty strings. */
  predicate EnvReady(cfg: Config) {
    cfg.spreadsheetId != "" && cfg.serviceAccountEmail != "" && cfg.serviceAccountPrivateKey != ""
  }

  /** The message of the error `getSheetsClient` throws when a credential is missing. */
  const MissingEnvMessage: string :=
    "Missing Google Sheets environment variables. Please set GOOGLE_SHEETS_SPREADSHEET_ID, GOOGLE_SERVICE_ACCOUNT_EMAIL, and GOOGLE_SERVICE_ACCOUNT_PRIVATE_KEY."

  /** The range used when none is configured. */
  const DefaultRange: string := "Entries!A:H"

  /** The page size used when neither the caller nor the configuration gives one. */
  const DefaultPageSize: int := 50

  /**
   * One registrant. `desk` is `None` for the records the src/lib reader
   * builds, which have no such field.
   */
  datatype Entry = Entry(
    registrationNumber: string,
    name: string,
    email: string,
    phoneNumber: string,
    residencyStatus: string,
    uniqueId: Option<string>,
    transactionId: string,
    desk: Option<string>,
    mailSent: bool,
    rowNumber: int)

  /** What `values.get` produced: the grid of cell strings, or a failure with its message. */
  datatype Fetch = Fetched(values: seq<seq<string>>) | FetchFailed(message: string)
}
