/**
 * src/actions/id.ts: `generateUniqueIds`, the server action behind the
 * "generate ids" button. Unlike the library writer it reports every
 * failure as `{ updatedCount: 0, error }` instead of returning `undefined`.
 */
module IdActions {
  import opened Wrappers
  import opened Text
  import opened Utils
  import opened AppConfig
  import opened Addresses
  import opened Rows
  import opened IdAssign

  const MissingColumnMessage: string := "The sheet must contain a 'Unique ID' column."
  const FallbackMessage: string := "Failed to generate Unique IDs"

  /** `{ updatedCount, error? }`. */
  datatype GenerateIdsResult = GenerateIdsResult(updatedCount: nat, error: Option<string>)

  /** The error text of the catch block: `error.message || "Failed to generate Unique IDs"`. */
  function ErrorText(message: string): (t: string)
    ensures t != ""
    ensures message != "" ==> t == message
  {
    if message != "" then message else FallbackMessage
  }

  /**
   * `generateUniqueIds`. `draws(k)` is the value of the k-th `nano()` call
   * and `batchError` the message of a failed `batchUpdate`, if it fails;
   * `batch` is the request body sent, if one is sent.
   */
  method GenerateUniqueIds(cfg: Config, fetch: Fetch, draws: nat -> Suffix, batchError: Option<string>)
    returns (result: GenerateIdsResult, batch: Option<seq<Update>>)
    ensures !EnvReady(cfg) ==> result == GenerateIdsResult(0, Some(MissingEnvMessage)) && batch == None
    ensures EnvReady(cfg) && fetch.FetchFailed? ==>
              result == GenerateIdsResult(0, Some(ErrorText(fetch.message))) && batch == None
    ensures EnvReady(cfg) && fetch == Fetched([]) ==> result == GenerateIdsResult(0, None) && batch == None
    ensures EnvReady(cfg) && fetch.Fetched? && fetch.values != [] && UniqueIdKey !in GridHeaders(fetch.values)
            ==> result == GenerateIdsResult(0, Some(MissingColumnMessage)) && batch == None
    ensures EnvReady(cfg) && fetch.Fetched? && fetch.values != [] && UniqueIdKey in GridHeaders(fetch.values) ==>
              var us := IdUpdates(fetch.values[1..], GridHeaders(fetch.values)[UniqueIdKey], SheetName(cfg.range), TopLeft, draws);
              && batch == (if us == [] then None else Some(us))
              && result == (if us == [] then GenerateIdsResult(0, None)
                            else if batchError.Some? then GenerateIdsResult(0, Some(ErrorText(batchError.value)))
                            else GenerateIdsResult(|us|, None))
  {
    batch := None;
    if !EnvReady(cfg) {
      result := GenerateIdsResult(0, Some(ErrorText(MissingEnvMessage)));
      return;
    }
    if fetch.FetchFailed? {
      result := GenerateIdsResult(0, Some(ErrorText(fetch.message)));
      return;
    }
    var values := fetch.values;
    if |values| == 0 {
      result := GenerateIdsResult(0, None);
      return;
    }
    var headerMap := MapHeaders(HeaderRow(values[0]));
    if UniqueIdKey !in headerMap {
      result := GenerateIdsResult(0, Some(MissingColumnMessage));
      return;
    }
    var col := headerMap[UniqueIdKey];
    var updates := BuildIdUpdates(values[1..], col, cfg.range, draws);
    if |updates| == 0 {
      result := GenerateIdsResult(0, None);
      return;
    }
    batch := Some(updates);
    if batchError.Some? {
      result := GenerateIdsResult(0, Some(ErrorText(batchError.value)));
      return;
    }
    result := GenerateIdsResult(|updates|, None);
  }

  /**
   * Re-run idempotence for a range that starts at cell A1, as the default
   * "Entries!A:H" does: once the batch of one run is applied to the grid,
   * the header row and so the id column are the same, and a second run
   * builds no update, so it reports `updatedCount` 0 without an error.
   * (`IdAssign.OffsetRangeOverwrites` shows a range starting elsewhere.)
   */
  lemma RerunWritesNothing(values: seq<seq<string>>, range: string, draws: nat -> Suffix, draws2: nat -> Suffix)
    requires values != [] && UniqueIdKey in GridHeaders(values)
    ensures var col := GridHeaders(values)[UniqueIdKey];
      var after := ApplyAll(values, TopLeft, IdUpdates(values[1..], col, SheetName(range), TopLeft, draws));
      && after != [] && GridHeaders(after) == GridHeaders(values)
      && IdUpdates(after[1..], col, SheetName(range), TopLeft, draws2) == []
  {
    var col := GridHeaders(values)[UniqueIdKey];
    RerunFindsNothing(values, TopLeft, col, SheetName(range), SheetName(range), TopLeft, draws, draws2);
  }
}
