/**
 * src/lib/google-sheets.ts: the route-side reader and the unique-id writer.
 * Both swallow every failure (missing credentials, a failed read, a missing
 * id column, a failed batch write) and return `undefined`, here `None`.
 */
module GoogleSheets {
  import opened Wrappers
  import opened Text
  import opened Utils
  import opened AppConfig
  import opened Addresses
  import opened Rows
  import opened IdAssign

  /** The header names this copy reads: "email", "phone number", "transaction id", and no desk. */
  const LibKeys: HeaderKeys := HeaderKeys("email", "phone number", "transaction id", None)

  /**
   * `readEntries`: `undefined` when a credential is missing or the read
   * fails, otherwise the parsed grid (an absent `values` arrives as the
   * empty grid).
   */
  function ReadEntries(cfg: Config, fetch: Fetch): (r: Option<Listing>)
    ensures r.None? <==> !EnvReady(cfg) || fetch.FetchFailed?
    ensures r.Some? ==> r.value == ParseGrid(LibKeys, fetch.values)
  {
    if !EnvReady(cfg) then None
    else match fetch
      case FetchFailed(_) => None
      case Fetched(values) => Some(ParseGrid(LibKeys, values))
  }

  /**
   * The records of this reader carry no desk, and take e-mail, phone and
   * transaction id from the "email", "phone number" and "transaction id"
   * columns; the empty grid gives no entries.
   */
  lemma ReadEntriesFields(cfg: Config, values: seq<seq<string>>, i: nat)
    requires EnvReady(cfg) && values != [] && i < |values| - 1
    ensures var hm, row := GridHeaders(values), values[i + 1];
      var e := ReadEntries(cfg, Fetched(values)).value.entries[i];
      && e.desk == None
      && e.email == Field(hm, row, "email")
      && e.phoneNumber == Field(hm, row, "phone number")
      && e.transactionId == Field(hm, row, "transaction id")
      && e.rowNumber == i + 2
  {
    assert ReadEntries(cfg, Fetched(values)).value.entries[i] == ParseRow(LibKeys, GridHeaders(values), values[i + 1], i);
  }

  lemma ReadEntriesEmpty(cfg: Config)
    requires EnvReady(cfg)
    ensures ReadEntries(cfg, Fetched([])) == Some(Listing([], 0))
  {
  }

  /**
   * `writeUniqueIdsForMissing`. `draws(k)` is the value of the k-th `nano()`
   * call and `batchError` the failure of the `batchUpdate` request, if any;
   * `batch` is the request body sent, if one is sent.
   */
  method WriteUniqueIdsForMissing(cfg: Config, fetch: Fetch, draws: nat -> Suffix, batchError: Option<string>)
    returns (result: Option<nat>, batch: Option<seq<Update>>)
    ensures !EnvReady(cfg) || fetch.FetchFailed? ==> result == None && batch == None
    ensures EnvReady(cfg) && fetch == Fetched([]) ==> result == Some(0) && batch == None
    ensures EnvReady(cfg) && fetch.Fetched? && fetch.values != [] && UniqueIdKey !in GridHeaders(fetch.values)
            ==> result == None && batch == None
    ensures EnvReady(cfg) && fetch.Fetched? && fetch.values != [] && UniqueIdKey in GridHeaders(fetch.values) ==>
              var us := IdUpdates(fetch.values[1..], GridHeaders(fetch.values)[UniqueIdKey], SheetName(cfg.range), TopLeft, draws);
              && batch == (if us == [] then None else Some(us))
              && result == (if us != [] && batchError.Some? then None else Some(|us|))
  {
    result, batch := None, None;
    if !EnvReady(cfg) || fetch.FetchFailed? {
      return;
    }
    var values := fetch.values;
    if |values| == 0 {
      result := Some(0);
      return;
    }
    var headerMap := MapHeaders(HeaderRow(values[0]));
    if UniqueIdKey !in headerMap {
      return;
    }
    var col := headerMap[UniqueIdKey];
    var updates := BuildIdUpdates(values[1..], col, cfg.range, draws);
    if |updates| == 0 {
      result := Some(0);
      return;
    }
    batch := Some(updates);
    if batchError.Some? {
      return;
    }
    result := Some(|updates|);
  }
}
