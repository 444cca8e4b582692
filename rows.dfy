/**
 * The row parsing both `readEntries` copies share (src/lib/google-sheets.ts
 * and src/actions/sheet.ts): the first row is the header row, every other
 * row becomes one `Entry`, and fields are looked up by header name through
 * the `get` closure. The two copies differ only in the header names of four
 * fields, which `HeaderKeys` carries.
 */
module Rows {
  import opened Text
  import opened Wrappers
  import opened Utils
  import opened AppConfig

  /** The header names a reader looks up for e-mail, phone, transaction id and (optionally) desk. */
  datatype HeaderKeys = HeaderKeys(email: string, phone: string, transaction: string, desk: Option<string>)

  /** `{ entries, total }`. */
  datatype Listing = Listing(entries: seq<Entry>, total: int)

  const UniqueIdKey: string := "unique id"
  const SentKey: string := "sent"
  const ResidencyKey: string := "hosteller/day scholar"

  /** `(row[i] || "").toString().trim()`: a cell past the end of its row reads as "". */
  function Cell(row: seq<string>, i: nat): string {
    if i < |row| then Trim(row[i]) else ""
  }

  /** The `get(key)` closure: "" when the header is absent. */
  function Field(hm: map<string, nat>, row: seq<string>, key: string): string {
    if key in hm then Cell(row, hm[key]) else ""
  }

  /** JavaScript `a || b` on strings. */
  function Or(a: string, b: string): string {
    if a != "" then a else b
  }

  /** The "sent" flag: true exactly for "true", "1" and "yes" after lower-casing. */
  predicate IsSentFlag(raw: string) {
    var v := ToLower(raw);
    v == "true" || v == "1" || v == "yes"
  }

  /** `values[0].map((h) => (h || "").toString().trim())`. */
  function HeaderRow(first: seq<string>): (hs: seq<string>)
    ensures |hs| == |first|
  {
    seq(|first|, i requires 0 <= i < |first| => Trim(first[i]))
  }

  /** The record built for data row `idx` (sheet row `idx + 2`). */
  function ParseRow(keys: HeaderKeys, hm: map<string, nat>, row: seq<string>, idx: nat): Entry {
    var get := (key: string) => Field(hm, row, key);
    var residency := get(ResidencyKey);
    var uid := get(UniqueIdKey);
    Entry(
      registrationNumber := get("registration number"),
      name := get("name"),
      email := get(keys.email),
      phoneNumber := get(keys.phone),
      residencyStatus := Or(Or(residency, residency), residency),
      uniqueId := if uid != "" then Some(uid) else None,
      transactionId := get(keys.transaction),
      desk := if keys.desk.Some? then Some(get(keys.desk.value)) else None,
      mailSent := IsSentFlag(get(SentKey)),
      rowNumber := idx + 2)
  }

  /** The column map of a non-empty grid. */
  function GridHeaders(values: seq<seq<string>>): map<string, nat>
    requires values != []
  {
    HeaderMap(HeaderRow(values[0]))
  }

  /**
   * The successful path of `readEntries`: no rows give no entries; otherwise
   * one entry per data row, in order, numbered from 2, and `total` is their count.
   */
  function ParseGrid(keys: HeaderKeys, values: seq<seq<string>>): (r: Listing)
    ensures values == [] ==> r == Listing([], 0)
    ensures values != [] ==> |r.entries| == |values| - 1
    ensures r.total == |r.entries|
    ensures forall i :: 0 <= i < |r.entries| ==> r.entries[i].rowNumber == i + 2
  {
    if values == [] then Listing([], 0)
    else
      var hm := GridHeaders(values);
      var es := seq(|values| - 1, i requires 0 <= i < |values| - 1 => ParseRow(keys, hm, values[i + 1], i));
      Listing(es, |es|)
  }

  /**
   * What each field of the entry for data row `i` holds, in terms of the raw
   * cells: a missing header or a missing cell reads as "", a present cell is
   * trimmed; `uniqueId` is null exactly when the trimmed id cell is empty;
   * `mailSent` holds exactly for a "sent" cell that reads "true", "1" or "yes".
   */
  lemma ParsedFields(keys: HeaderKeys, values: seq<seq<string>>, i: nat)
    requires values != [] && i < |values| - 1
    ensures var hm, row, e := GridHeaders(values), values[i + 1], ParseGrid(keys, values).entries[i];
      && (forall key :: (key !in hm || hm[key] >= |row|) ==> Field(hm, row, key) == "")
      && (forall key :: key in hm && hm[key] < |row| ==> Field(hm, row, key) == Trim(row[hm[key]]))
      && e.name == Field(hm, row, "name")
      && e.registrationNumber == Field(hm, row, "registration number")
      && e.email == Field(hm, row, keys.email)
      && e.phoneNumber == Field(hm, row, keys.phone)
      && e.transactionId == Field(hm, row, keys.transaction)
      && e.residencyStatus == Field(hm, row, ResidencyKey)
      && (e.uniqueId == None <==> Field(hm, row, UniqueIdKey) == "")
      && (e.uniqueId.Some? ==> e.uniqueId.value == Field(hm, row, UniqueIdKey))
      && (e.mailSent <==> ToLower(Field(hm, row, SentKey)) in {"true", "1", "yes"})
      && e.rowNumber == i + 2
  {
  }

  /**
   * A field read through the header map, in terms of the raw header row:
   * it is present exactly when some header normalises to the key, and then
   * it is the trimmed cell of the last such column.
   */
  lemma GridField(values: seq<seq<string>>, row: seq<string>, key: string)
    requires values != []
    ensures var h := HeaderRow(values[0]);
      && (key in GridHeaders(values) <==> exists j :: 0 <= j < |h| && Normalize(h[j]) == key)
      && (key !in GridHeaders(values) ==> Field(GridHeaders(values), row, key) == "")
      && (key in GridHeaders(values) ==>
            var c := GridHeaders(values)[key];
            && c < |h| && Normalize(h[c]) == key
            && (forall j :: c < j < |h| ==> Normalize(h[j]) != key)
            && Field(GridHeaders(values), row, key) == Cell(row, c))
  {
    var h := HeaderRow(values[0]);
    HeaderMapSpec(h);
    if exists j :: 0 <= j < |h| && Normalize(h[j]) == key {
      var j :| 0 <= j < |h| && Normalize(h[j]) == key;
      assert Normalize(h[j]) in HeaderMap(h);
    }
  }

  /** Every text field a reader fills in is already trimmed. */
  lemma FieldTrimmed(hm: map<string, nat>, row: seq<string>, key: string)
    ensures Trim(Field(hm, row, key)) == Field(hm, row, key)
  {
    if key in hm && hm[key] < |row| {
      TrimIdempotent(row[hm[key]]);
    }
  }

  /** The entry for a row has a null `uniqueId` exactly when that row's id cell is blank. */
  lemma UniqueIdNullIffBlank(keys: HeaderKeys, values: seq<seq<string>>, i: nat)
    requires values != [] && i < |values| - 1 && UniqueIdKey in GridHeaders(values)
    ensures ParseGrid(keys, values).entries[i].uniqueId == None
            <==> Cell(values[i + 1], GridHeaders(values)[UniqueIdKey]) == ""
  {
    ParsedFields(keys, values, i);
  }
}
