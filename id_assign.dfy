/**
 * Unique-id assignment shared by `generateUniqueIds` (src/actions/id.ts) and
 * `writeUniqueIdsForMissing` (src/lib/google-sheets.ts): the id format, the
 * loop that emits one one-cell write per data row whose id cell is blank,
 * and what the sheet looks like once those writes are applied.
 *
 * The random part of an id is supplied: `draws(k)` is what the k-th call of
 * `nano()` returns, any 8 characters of the id alphabet.
 */
module IdAssign {
  import opened Text
  import opened Wrappers
  import opened Utils
  import opened Addresses
  import opened Rows

  /** The alphabet of `customAlphabet`: capitals and digits without I, O, 0 and 1. */
  const IdAlphabet: string := "ABCDEFGHJKLMNPQRSTUVWXYZ23456789"

  const IdPrefix: string := "ET-"

  /** Membership in the alphabet, by character range. */
  predicate IdChar(c: char) {
    ('A' <= c <= 'Z' && c != 'I' && c != 'O') || ('2' <= c <= '9')
  }

  /** A possible value of `nano()`: 8 characters of the alphabet. */
  predicate IsSuffix(s: string) {
    |s| == 8 && forall i :: 0 <= i < |s| ==> IdChar(s[i])
  }

  type Suffix = s: string | IsSuffix(s) witness "AAAAAAAA"

  /** The shape of every generated id. */
  predicate IsUniqueId(id: string) {
    |id| == 11 && id[..3] == IdPrefix && IsSuffix(id[3..])
  }

  /** The alphabet has 32 symbols, exactly the characters `IdChar` accepts, and no I, O, 0 or 1. */
  lemma AlphabetFacts()
    ensures |IdAlphabet| == 32
    ensures forall c :: c in IdAlphabet <==> IdChar(c)
    ensures 'I' !in IdAlphabet && 'O' !in IdAlphabet && '0' !in IdAlphabet && '1' !in IdAlphabet
  {
  }

  /** `generateUniqueId`: "ET-" followed by the drawn suffix. */
  function GenerateUniqueId(suffix: Suffix): (id: string)
    ensures |id| == 11 && id[..3] == IdPrefix && id[3..] == suffix
  {
    IdPrefix + suffix
  }

  /** Every generated id has the id shape and carries the drawn suffix after the prefix. */
  lemma GeneratedIdShape(suffix: Suffix)
    ensures IsUniqueId(GenerateUniqueId(suffix)) && GenerateUniqueId(suffix)[3..] == suffix
  {
    var id := GenerateUniqueId(suffix);
    assert id[..3] == IdPrefix && id[3..] == suffix;
  }

  /** A generated id is never blank, so a later scan skips the row it was written to. */
  lemma GeneratedNotBlank(suffix: Suffix)
    ensures !IsBlank(GenerateUniqueId(suffix))
  {
    var id := GenerateUniqueId(suffix);
    assert id[0] == 'E' && id[10] == suffix[7] && IdChar(id[10]);
  }

  /** One entry of `dataUpdates`: a range and the single value written there. */
  datatype Update = Update(range: string, value: string)

  /** For each data row, whether its trimmed id cell is empty (a missing cell counts as empty). */
  function BlankFlags(rows: seq<seq<string>>, col: nat): (f: seq<bool>)
    ensures |f| == |rows|
  {
    seq(|rows|, i requires 0 <= i < |rows| => Cell(rows[i], col) == "")
  }

  /** The positions holding `true`, in order. */
  function Positions(f: seq<bool>): seq<nat>
    decreases |f|
  {
    if f == [] then [] else Positions(f[..|f| - 1]) + (if f[|f| - 1] then [|f| - 1] else [])
  }

  /** The indices of the data rows whose id cell is blank, in order. */
  function BlankIndices(rows: seq<seq<string>>, col: nat): seq<nat> {
    Positions(BlankFlags(rows, col))
  }

  /**
   * Where the grid lies on the sheet: `values[i][j]` is read from sheet row
   * `row + i`, 0-based column `col + j`, so the origin is the top-left cell
   * of the configured range.
   */
  datatype Origin = Origin(col: nat, row: nat)

  /** Cell A1, where the default range "Entries!A:H" starts. */
  const TopLeft: Origin := Origin(0, 1)

  /** The sheet cell that the `col` cell of data row `idx` (grid row `idx + 1`) is read from. */
  function IdCell(sheet: string, o: Origin, col: nat, idx: nat): Target {
    Target(sheet, o.col + col, o.row + 1 + idx)
  }

  /**
   * The write for the k-th blank row, data row `idx` (grid row `idx + 1`),
   * addressed relative to the grid's origin `o`. With `o == TopLeft` this is
   * `toA1(uniqueIdColIndex, idx + 2)`, the address the code writes to
   * whatever the range.
   */
  function UpdateFor(sheet: string, o: Origin, col: nat, draws: nat -> Suffix, k: nat, idx: nat): Update {
    Update(CellRange(sheet, A1(o.col + col, o.row + 1 + idx)), GenerateUniqueId(draws(k)))
  }

  /** The writes for the rows flagged in `f`, the k-th drawing the k-th id. */
  function UpdatesOf(f: seq<bool>, col: nat, sheet: string, o: Origin, draws: nat -> Suffix): seq<Update>
    decreases |f|
  {
    if f == [] then []
    else
      var before := UpdatesOf(f[..|f| - 1], col, sheet, o, draws);
      before + (if f[|f| - 1] then [UpdateFor(sheet, o, col, draws, |before|, |f| - 1)] else [])
  }

  /** `dataUpdates` after the `forEach` over the data rows `rows` of a grid read at `o`. */
  function IdUpdates(rows: seq<seq<string>>, col: nat, sheet: string, o: Origin, draws: nat -> Suffix): seq<Update> {
    UpdatesOf(BlankFlags(rows, col), col, sheet, o, draws)
  }

  /** The `forEach` loop: one write per blank id cell, addressed with `toA1(col, idx + 2)`. */
  method BuildIdUpdates(rows: seq<seq<string>>, col: nat, range: string, draws: nat -> Suffix)
    returns (updates: seq<Update>)
    ensures updates == IdUpdates(rows, col, SheetName(range), TopLeft, draws)
  {
    ghost var f := BlankFlags(rows, col);
    ghost var sheet := SheetName(range);
    updates := [];
    var i := 0;
    while i < |rows|
      invariant 0 <= i <= |rows|
      invariant updates == UpdatesOf(f[..i], col, sheet, TopLeft, draws)
    {
      UpdatesOfStep(f, i, col, sheet, TopLeft, draws);
      var current := Cell(rows[i], col);
      if current == "" {
        var a1 := ToA1(col, i + 2);
        var u := Update(SheetName(range) + "!" + a1 + ":" + a1, GenerateUniqueId(draws(|updates|)));
        CodeAddress(sheet, col, draws, |updates|, i, a1);
        updates := updates + [u];
      }
      i := i + 1;
    }
    assert f[..|rows|] == f;
  }

  /** The loop's write for data row `i` is `UpdateFor` at the origin A1. */
  lemma CodeAddress(sheet: string, col: nat, draws: nat -> Suffix, k: nat, i: nat, a1: string)
    requires a1 == A1(col, i + 2)
    ensures Update(sheet + "!" + a1 + ":" + a1, GenerateUniqueId(draws(k))) == UpdateFor(sheet, TopLeft, col, draws, k, i)
  {
  }

  /** One more row extends the writes by that row's write, if it is blank. */
  lemma UpdatesOfStep(f: seq<bool>, i: nat, col: nat, sheet: string, o: Origin, draws: nat -> Suffix)
    requires i < |f|
    ensures var before := UpdatesOf(f[..i], col, sheet, o, draws);
      UpdatesOf(f[..i + 1], col, sheet, o, draws)
      == before + (if f[i] then [UpdateFor(sheet, o, col, draws, |before|, i)] else [])
  {
    assert f[..i + 1][..i] == f[..i];
  }

  /** Every position is a flagged index. */
  lemma {:induction false} PositionsSound(f: seq<bool>)
    ensures forall k :: 0 <= k < |Positions(f)| ==> Positions(f)[k] < |f| && f[Positions(f)[k]]
    decreases |f|
  {
    if f != [] {
      var p := f[..|f| - 1];
      PositionsSound(p);
      assert forall idx :: 0 <= idx < |p| ==> p[idx] == f[idx];
    }
  }

  /** Every flagged index is a position. */
  lemma {:induction false} PositionsComplete(f: seq<bool>)
    ensures forall idx :: 0 <= idx < |f| && f[idx] ==> idx in Positions(f)
    decreases |f|
  {
    if f != [] {
      var p := f[..|f| - 1];
      PositionsComplete(p);
      assert forall idx :: 0 <= idx < |p| ==> p[idx] == f[idx];
    }
  }

  /** The positions are strictly increasing. */
  lemma {:induction false} PositionsIncreasing(f: seq<bool>)
    ensures forall k, l :: 0 <= k < l < |Positions(f)| ==> Positions(f)[k] < Positions(f)[l]
    decreases |f|
  {
    if f != [] {
      PositionsIncreasing(f[..|f| - 1]);
      PositionsSound(f[..|f| - 1]);
    }
  }

  /** The positions of `f` are its flagged indices, in strictly increasing order. */
  lemma PositionsSpec(f: seq<bool>)
    ensures forall idx: nat :: idx in Positions(f) <==> idx < |f| && f[idx]
    ensures forall k :: 0 <= k < |Positions(f)| ==> Positions(f)[k] < |f|
    ensures forall k, l :: 0 <= k < l < |Positions(f)| ==> Positions(f)[k] < Positions(f)[l]
  {
    PositionsSound(f);
    PositionsComplete(f);
    PositionsIncreasing(f);
  }

  /** The place of a flagged index among the positions. */
  lemma PositionOf(f: seq<bool>, idx: nat) returns (k: nat)
    requires idx < |f| && f[idx]
    ensures k < |Positions(f)| && Positions(f)[k] == idx
  {
    PositionsComplete(f);
    var b := Positions(f);
    assert idx in b;
    k :| 0 <= k < |b| && b[k] == idx;
  }

  /** A data row is listed exactly when its id cell is blank, and the list is strictly increasing. */
  lemma BlankIndicesSpec(rows: seq<seq<string>>, col: nat)
    ensures forall idx: nat :: idx in BlankIndices(rows, col) <==> idx < |rows| && Cell(rows[idx], col) == ""
    ensures forall k :: 0 <= k < |BlankIndices(rows, col)| ==> BlankIndices(rows, col)[k] < |rows|
    ensures forall k, l :: 0 <= k < l < |BlankIndices(rows, col)| ==> BlankIndices(rows, col)[k] < BlankIndices(rows, col)[l]
  {
    PositionsSpec(BlankFlags(rows, col));
  }

  lemma {:induction false} UpdatesOfSpec(f: seq<bool>, col: nat, sheet: string, o: Origin, draws: nat -> Suffix)
    ensures |UpdatesOf(f, col, sheet, o, draws)| == |Positions(f)|
    ensures forall k :: 0 <= k < |Positions(f)| ==>
              UpdatesOf(f, col, sheet, o, draws)[k] == UpdateFor(sheet, o, col, draws, k, Positions(f)[k])
    decreases |f|
  {
    if f != [] {
      UpdatesOfSpec(f[..|f| - 1], col, sheet, o, draws);
    }
  }

  /**
   * The updates are the blank rows in order: the k-th update writes the k-th
   * drawn id into the cell, relative to `o`, of the k-th blank row's id column.
   */
  lemma IdUpdatesSpec(rows: seq<seq<string>>, col: nat, sheet: string, o: Origin, draws: nat -> Suffix)
    ensures var us, b := IdUpdates(rows, col, sheet, o, draws), BlankIndices(rows, col);
      && |us| == |b|
      && (forall k :: 0 <= k < |us| ==> us[k].range == CellRange(sheet, A1(o.col + col, o.row + 1 + b[k])))
      && (forall k :: 0 <= k < |us| ==> us[k].value == GenerateUniqueId(draws(k)))
  {
    UpdatesOfSpec(BlankFlags(rows, col), col, sheet, o, draws);
  }

  /** The value half of `IdUpdatesSpec`: the k-th update carries the k-th drawn id. */
  lemma IdUpdatesValues(rows: seq<seq<string>>, col: nat, sheet: string, o: Origin, draws: nat -> Suffix)
    ensures |IdUpdates(rows, col, sheet, o, draws)| == |BlankIndices(rows, col)|
    ensures forall k :: 0 <= k < |IdUpdates(rows, col, sheet, o, draws)| ==>
              IdUpdates(rows, col, sheet, o, draws)[k].value == GenerateUniqueId(draws(k))
  {
    IdUpdatesSpec(rows, col, sheet, o, draws);
  }

  /** The range of the k-th update names the sheet cell of the k-th blank row's id cell and no other. */
  lemma IdUpdatesTargets(rows: seq<seq<string>>, col: nat, sheet: string, o: Origin, draws: nat -> Suffix)
    requires '!' !in sheet
    ensures |IdUpdates(rows, col, sheet, o, draws)| == |BlankIndices(rows, col)|
    ensures forall k :: 0 <= k < |IdUpdates(rows, col, sheet, o, draws)| ==>
              ParseRange(IdUpdates(rows, col, sheet, o, draws)[k].range)
              == Some(IdCell(sheet, o, col, BlankIndices(rows, col)[k]))
  {
    IdUpdatesSpec(rows, col, sheet, o, draws);
    RangesTarget(IdUpdates(rows, col, sheet, o, draws), BlankIndices(rows, col), sheet, o, col);
  }

  /** An update addressed with the one-cell range of cell `t` names `t`. */
  lemma RangeTargetAt(u: Update, sheet: string, t: Target)
    requires '!' !in sheet && t.sheet == sheet && u.range == CellRange(sheet, A1(t.col, t.row))
    ensures ParseRange(u.range) == Some(t)
  {
    CellRangeRoundTrip(sheet, t.col, t.row);
  }

  /** Updates addressed with one-cell ranges of grid rows `b[k] + 1` name those cells. */
  lemma RangesTarget(us: seq<Update>, b: seq<nat>, sheet: string, o: Origin, col: nat)
    requires '!' !in sheet && |us| == |b|
    requires forall k :: 0 <= k < |us| ==> us[k].range == CellRange(sheet, A1(o.col + col, o.row + 1 + b[k]))
    ensures forall k :: 0 <= k < |us| ==> ParseRange(us[k].range) == Some(IdCell(sheet, o, col, b[k]))
  {
    forall k | 0 <= k < |us| ensures ParseRange(us[k].range) == Some(IdCell(sheet, o, col, b[k])) {
      RangeTargetAt(us[k], sheet, IdCell(sheet, o, col, b[k]));
    }
  }

  /**
   * No update touches a row with a non-blank id: the k-th update names the
   * sheet cell that the id cell of the k-th blank data row is read from
   * (data row `idx` is grid row `idx + 1`, read from sheet row
   * `o.row + 1 + idx`), and that id cell is blank.
   */
  lemma NeverOverwrites(rows: seq<seq<string>>, col: nat, sheet: string, o: Origin, draws: nat -> Suffix, k: nat)
    requires '!' !in sheet && k < |IdUpdates(rows, col, sheet, o, draws)|
    ensures |IdUpdates(rows, col, sheet, o, draws)| == |BlankIndices(rows, col)|
    ensures var idx := BlankIndices(rows, col)[k];
      && ParseRange(IdUpdates(rows, col, sheet, o, draws)[k].range) == Some(IdCell(sheet, o, col, idx))
      && idx < |rows| && Cell(rows[idx], col) == ""
  {
    IdUpdatesTargets(rows, col, sheet, o, draws);
    BlankIndexAt(rows, col, k);
  }

  /** The k-th blank index is a data row whose id cell is blank. */
  lemma BlankIndexAt(rows: seq<seq<string>>, col: nat, k: nat)
    requires k < |BlankIndices(rows, col)|
    ensures BlankIndices(rows, col)[k] < |rows| && Cell(rows[BlankIndices(rows, col)[k]], col) == ""
  {
    PositionAt(BlankFlags(rows, col), k);
  }

  /** The k-th position is a flagged index of `f`. */
  lemma PositionAt(f: seq<bool>, k: nat)
    requires k < |Positions(f)|
    ensures Positions(f)[k] < |f| && f[Positions(f)[k]]
  {
    PositionsSound(f);
  }

  /** The number of updates is the number of data rows with a blank id cell. */
  lemma UpdateCountIsBlankCount(rows: seq<seq<string>>, col: nat, sheet: string, o: Origin, draws: nat -> Suffix)
    ensures |IdUpdates(rows, col, sheet, o, draws)| == |set idx: nat | idx < |rows| && Cell(rows[idx], col) == ""|
  {
    var f := BlankFlags(rows, col);
    UpdatesOfSpec(f, col, sheet, o, draws);
    PositionsCount(f);
    assert (set idx: nat | idx < |rows| && Cell(rows[idx], col) == "") == (set idx: nat | idx < |f| && f[idx]);
  }

  /** There are as many positions as `true` flags. */
  lemma PositionsCount(f: seq<bool>)
    ensures |Positions(f)| == |set idx: nat | idx < |f| && f[idx]|
  {
    var b := Positions(f);
    PositionsSpec(f);
    DistinctCard(b);
    assert (set k | 0 <= k < |b| :: b[k]) == (set idx: nat | idx < |f| && f[idx]) by {
      forall idx: nat | idx < |f| && f[idx] ensures idx in (set k | 0 <= k < |b| :: b[k]) {
        var k :| 0 <= k < |b| && b[k] == idx;
      }
    }
  }

  /** A strictly increasing sequence has as many distinct elements as positions. */
  lemma {:induction false} DistinctCard(b: seq<nat>)
    requires forall k, l :: 0 <= k < l < |b| ==> b[k] < b[l]
    ensures |set k | 0 <= k < |b| :: b[k]| == |b|
    decreases |b|
  {
    if b != [] {
      var p := b[..|b| - 1];
      DistinctCard(p);
      var s := set k | 0 <= k < |b| :: b[k];
      var sp := set k | 0 <= k < |p| :: p[k];
      assert s == sp + {b[|b| - 1]} by {
        forall x | x in s ensures x in sp + {b[|b| - 1]} {
          var k :| 0 <= k < |b| && b[k] == x;
          if k < |p| { assert p[k] == x; }
        }
      }
      assert b[|b| - 1] !in sp;
    }
  }

  /** Row `row` with cell `c` set to `v`, padding a short row with empty cells. */
  function SetAt(row: seq<string>, c: nat, v: string): (r: seq<string>)
    ensures |r| == if c < |row| then |row| else c + 1
    ensures r[c] == v
    ensures forall j :: 0 <= j < |row| && j != c ==> r[j] == row[j]
  {
    if c < |row| then row[c := v] else row + seq(c - |row|, _ => "") + [v]
  }

  /** A write of one value into one cell. */
  datatype Write = Write(target: Target, value: string)

  /**
   * The grid read at `o` after one write: sheet cell (col, row) is grid cell
   * `[row - o.row][col - o.col]`, and a write above, left of or below the
   * grid leaves it as it is. The range is taken to reach far enough right
   * for every column written. The sheet name is not compared (the grid
   * holds one sheet).
   */
  function ApplyWrite(values: seq<seq<string>>, o: Origin, w: Write): (r: seq<seq<string>>)
    ensures |r| == |values|
  {
    var t := w.target;
    if o.row <= t.row < o.row + |values| && o.col <= t.col
    then values[t.row - o.row := SetAt(values[t.row - o.row], t.col - o.col, w.value)]
    else values
  }

  /** The writes applied in order. */
  function ApplyWrites(values: seq<seq<string>>, o: Origin, ws: seq<Write>): (r: seq<seq<string>>)
    ensures |r| == |values|
    decreases |ws|
  {
    if ws == [] then values else ApplyWrite(ApplyWrites(values, o, ws[..|ws| - 1]), o, ws[|ws| - 1])
  }

  /** One entry of the batch applied to the grid: its range names the cell written. */
  function ApplyUpdate(values: seq<seq<string>>, o: Origin, u: Update): (r: seq<seq<string>>)
    ensures |r| == |values|
  {
    match ParseRange(u.range)
    case None => values
    case Some(t) => ApplyWrite(values, o, Write(t, u.value))
  }

  /** The grid after the batch: the entries applied in order. */
  function ApplyAll(values: seq<seq<string>>, o: Origin, us: seq<Update>): (r: seq<seq<string>>)
    ensures |r| == |values|
    decreases |us|
  {
    if us == [] then values else ApplyUpdate(ApplyAll(values, o, us[..|us| - 1]), o, us[|us| - 1])
  }

  /** A batch whose ranges all parse applies as the writes to the parsed cells. */
  lemma {:induction false} ApplyAllAsWrites(values: seq<seq<string>>, o: Origin, us: seq<Update>, ws: seq<Write>)
    requires |us| == |ws|
    requires forall k :: 0 <= k < |us| ==> ParseRange(us[k].range) == Some(ws[k].target) && us[k].value == ws[k].value
    ensures ApplyAll(values, o, us) == ApplyWrites(values, o, ws)
    decreases |us|
  {
    if us != [] {
      ApplyAllAsWrites(values, o, us[..|us| - 1], ws[..|ws| - 1]);
    }
  }

  /** Grid rows no write targets keep their contents; in particular the header row does. */
  lemma {:induction false} ApplyWritesUntouched(values: seq<seq<string>>, o: Origin, ws: seq<Write>, i: nat)
    requires i < |values|
    requires forall k :: 0 <= k < |ws| ==> ws[k].target.row != o.row + i
    ensures ApplyWrites(values, o, ws)[i] == values[i]
    decreases |ws|
  {
    if ws != [] {
      ApplyWritesUntouched(values, o, ws[..|ws| - 1], i);
    }
  }

  /**
   * Writes to the sheet column of grid column `col`, in strictly increasing
   * rows: the grid row the k-th write targets ends up as its original
   * contents with that one cell set.
   */
  lemma {:induction false} ApplyWritesTargeted(values: seq<seq<string>>, o: Origin, ws: seq<Write>, col: nat, k: nat)
    requires forall k, l :: 0 <= k < l < |ws| ==> ws[k].target.row < ws[l].target.row
    requires k < |ws| && o.row <= ws[k].target.row < o.row + |values| && ws[k].target.col == o.col + col
    ensures ApplyWrites(values, o, ws)[ws[k].target.row - o.row]
            == SetAt(values[ws[k].target.row - o.row], col, ws[k].value)
    decreases |ws|
  {
    var last := |ws| - 1;
    var p := ws[..last];
    if k == last {
      ApplyWritesUntouched(values, o, p, ws[k].target.row - o.row);
    } else {
      assert ws[k] == p[k];
      ApplyWritesTargeted(values, o, p, col, k);
    }
  }

  /**
   * A batch whose k-th entry names the cell of grid row `b[k] + 1`, grid
   * column `col`, and carries the k-th drawn id applies as the writes of
   * those ids to those cells.
   */
  lemma AsWrites(values: seq<seq<string>>, o: Origin, us: seq<Update>, b: seq<nat>, sheet: string, col: nat,
                 draws: nat -> Suffix) returns (ws: seq<Write>)
    requires |us| == |b|
    requires forall k :: 0 <= k < |us| ==> ParseRange(us[k].range) == Some(IdCell(sheet, o, col, b[k]))
    requires forall k :: 0 <= k < |us| ==> us[k].value == GenerateUniqueId(draws(k))
    ensures |ws| == |b| && ApplyAll(values, o, us) == ApplyWrites(values, o, ws)
    ensures forall k :: 0 <= k < |ws| ==>
              ws[k] == Write(IdCell(sheet, o, col, b[k]), GenerateUniqueId(draws(k)))
  {
    ws := seq(|us|, k requires 0 <= k < |us| => Write(IdCell(sheet, o, col, b[k]), us[k].value));
    ApplyAllAsWrites(values, o, us, ws);
  }

  /** The batch as writes: the k-th one puts the k-th drawn id into the id cell of the k-th blank row. */
  lemma IdWrites(values: seq<seq<string>>, o: Origin, col: nat, sheet: string, draws: nat -> Suffix)
    returns (ws: seq<Write>)
    requires '!' !in sheet && values != []
    ensures var b := BlankIndices(values[1..], col);
      && |ws| == |b|
      && ApplyAll(values, o, IdUpdates(values[1..], col, sheet, o, draws)) == ApplyWrites(values, o, ws)
      && forall k :: 0 <= k < |ws| ==>
           ws[k] == Write(IdCell(sheet, o, col, b[k]), GenerateUniqueId(draws(k)))
  {
    var rows := values[1..];
    var us, b := IdUpdates(rows, col, sheet, o, draws), BlankIndices(rows, col);
    IdUpdatesValues(rows, col, sheet, o, draws);
    IdUpdatesTargets(rows, col, sheet, o, draws);
    ws := AsWrites(values, o, us, b, sheet, col, draws);
  }

  /** Writes of generated ids to the id cells of the flagged rows leave a flagged row's id cell non-blank. */
  lemma FlaggedRowFilled(values: seq<seq<string>>, o: Origin, f: seq<bool>, ws: seq<Write>, sheet: string, col: nat,
                         draws: nat -> Suffix, i: nat)
    requires |f| + 1 == |values| && 1 <= i < |values| && |ws| == |Positions(f)| && f[i - 1]
    requires forall k :: 0 <= k < |ws| ==>
               ws[k] == Write(IdCell(sheet, o, col, Positions(f)[k]), GenerateUniqueId(draws(k)))
    ensures Cell(ApplyWrites(values, o, ws)[i], col) != ""
  {
    var k := PositionOf(f, i - 1);
    assert ws[k].target == IdCell(sheet, o, col, i - 1);
    PositionsIncreasing(f);
    assert forall k, l :: 0 <= k < l < |ws| ==> ws[k].target.row < ws[l].target.row;
    ApplyWritesTargeted(values, o, ws, col, k);
    GeneratedNotBlank(draws(k));
  }

  /** The same writes leave every row that is not flagged as it was. */
  lemma UnflaggedRowKept(values: seq<seq<string>>, o: Origin, f: seq<bool>, ws: seq<Write>, col: nat, i: nat)
    requires |f| + 1 == |values| && 1 <= i < |values| && |ws| == |Positions(f)| && !f[i - 1]
    requires forall k :: 0 <= k < |ws| ==> ws[k].target.row == o.row + 1 + Positions(f)[k]
    ensures ApplyWrites(values, o, ws)[i] == values[i]
  {
    PositionsSound(f);
    ApplyWritesUntouched(values, o, ws, i);
  }

  /** The grid-wide form of `FlaggedRowFilled` and `UnflaggedRowKept`, with `f` the blank flags of the data rows. */
  lemma WritesFillFlagged(values: seq<seq<string>>, o: Origin, f: seq<bool>, ws: seq<Write>, sheet: string, col: nat,
                          draws: nat -> Suffix)
    requires |f| + 1 == |values| && |ws| == |Positions(f)|
    requires forall i :: 0 <= i < |f| ==> f[i] == (Cell(values[i + 1], col) == "")
    requires forall k :: 0 <= k < |ws| ==>
               ws[k] == Write(IdCell(sheet, o, col, Positions(f)[k]), GenerateUniqueId(draws(k)))
    ensures ApplyWrites(values, o, ws)[0] == values[0]
    ensures forall i :: 1 <= i < |values| ==> Cell(ApplyWrites(values, o, ws)[i], col) != ""
    ensures forall i :: 1 <= i < |values| && Cell(values[i], col) != "" ==> ApplyWrites(values, o, ws)[i] == values[i]
  {
    ApplyWritesUntouched(values, o, ws, 0);
    forall i | 1 <= i < |values|
      ensures Cell(ApplyWrites(values, o, ws)[i], col) != ""
      ensures Cell(values[i], col) != "" ==> ApplyWrites(values, o, ws)[i] == values[i]
    {
      if f[i - 1] {
        FlaggedRowFilled(values, o, f, ws, sheet, col, draws, i);
      } else {
        UnflaggedRowKept(values, o, f, ws, col, i);
      }
    }
  }

  /**
   * What the batch, addressed relative to the grid's origin `o`, does to the
   * grid read at `o`: the header row stays, every data row's id cell is
   * non-blank afterwards, and a row whose id was already present is left
   * exactly as it was.
   */
  lemma ApplyIdUpdates(values: seq<seq<string>>, o: Origin, col: nat, sheet: string, draws: nat -> Suffix)
    requires '!' !in sheet && values != []
    ensures var after := ApplyAll(values, o, IdUpdates(values[1..], col, sheet, o, draws));
      && |after| == |values| && after[0] == values[0]
      && (forall i :: 1 <= i < |values| ==> Cell(after[i], col) != "")
      && (forall i :: 1 <= i < |values| && Cell(values[i], col) != "" ==> after[i] == values[i])
  {
    var ws := IdWrites(values, o, col, sheet, draws);
    var f := BlankFlags(values[1..], col);
    assert forall i :: 0 <= i < |f| ==> values[1..][i] == values[i + 1];
    WritesFillFlagged(values, o, f, ws, sheet, col, draws);
  }

  /** No flag set means no position and no write. */
  lemma {:induction false} NoneFlagged(f: seq<bool>, col: nat, sheet: string, o: Origin, draws: nat -> Suffix)
    requires forall i :: 0 <= i < |f| ==> !f[i]
    ensures Positions(f) == [] && UpdatesOf(f, col, sheet, o, draws) == []
    decreases |f|
  {
    if f != [] {
      NoneFlagged(f[..|f| - 1], col, sheet, o, draws);
    }
  }

  /**
   * Re-run idempotence, for writes addressed relative to the grid's origin:
   * once the writes of one scan are applied, the header row (and so the id
   * column) is unchanged, no data row has a blank id cell, and a second scan
   * emits no write, wherever it would address it.
   */
  lemma RerunFindsNothing(values: seq<seq<string>>, o: Origin, col: nat, sheet: string, sheet2: string, o2: Origin,
                          draws: nat -> Suffix, draws2: nat -> Suffix)
    requires '!' !in sheet && values != []
    ensures var after := ApplyAll(values, o, IdUpdates(values[1..], col, sheet, o, draws));
      && after != [] && after[0] == values[0]
      && BlankIndices(after[1..], col) == []
      && IdUpdates(after[1..], col, sheet2, o2, draws2) == []
  {
    ApplyIdUpdates(values, o, col, sheet, draws);
    var after := ApplyAll(values, o, IdUpdates(values[1..], col, sheet, o, draws));
    var rows := after[1..];
    forall i | 0 <= i < |rows| ensures !BlankFlags(rows, col)[i] {
      assert rows[i] == after[i + 1];
    }
    NoneFlagged(BlankFlags(rows, col), col, sheet2, o2, draws2);
  }

  /**
   * The code addresses every write as if the grid started at A1. For a
   * range such as "Entries!B:H" (origin B1) with the "unique id" header in sheet
   * column C (grid column 1), the write for the one blank data row goes to
   * sheet cell B2 (`BlankRowAddress`): it overwrites the name next to the
   * id, the id cell stays blank, and a second run writes there again.
   */
  lemma OffsetRangeOverwrites(values: seq<seq<string>>, o: Origin, col: nat, sheet: string,
                               draws: nat -> Suffix, draws2: nat -> Suffix)
    requires values == [["name", "unique id"], ["Ann", ""]] && o == Origin(1, 1) && col == 1 && '!' !in sheet
    ensures var us := IdUpdates(values[1..], col, sheet, TopLeft, draws);
      var after := ApplyAll(values, o, us);
      && us == [Update(CellRange(sheet, A1(col, 2)), GenerateUniqueId(draws(0)))]
      && after[1] == [GenerateUniqueId(draws(0)), ""]
      && |IdUpdates(after[1..], col, sheet, TopLeft, draws2)| == 1
  {
    var rows := values[1..];
    assert BlankFlags(rows, col) == [true] by {
      assert Cell(rows[0], col) == "" by { assert Trim("") == ""; }
    }
    OneBlankRow(rows, col, sheet, TopLeft, draws);
    var u := UpdateFor(sheet, TopLeft, col, draws, 0, 0);
    assert u == Update(CellRange(sheet, A1(col, 2)), GenerateUniqueId(draws(0))) by {
      assert TopLeft.col + col == col && TopLeft.row + 1 + 0 == 2;
    }
    CellRangeRoundTrip(sheet, col, 2);
    var after := ApplyAll(values, o, [u]);
    OffsetWriteLands(values, o, col, u, Target(sheet, col, 2));
    var rows2 := after[1..];
    assert BlankFlags(rows2, col) == [true] by {
      assert Cell(rows2[0], col) == "" by { assert Trim("") == ""; }
    }
    OneBlankRow(rows2, col, sheet, TopLeft, draws2);
  }

  /** In that grid `map["unique id"]` is 1: the id is grid column 1. */
  lemma OffsetHeaderColumn(values: seq<seq<string>>)
    requires values == [["name", "unique id"], ["Ann", ""]]
    ensures UniqueIdKey in GridHeaders(values) && GridHeaders(values)[UniqueIdKey] == 1
  {
    var h := HeaderRow(values[0]);
    var ks := Keys(h);
    assert ks[1] == UniqueIdKey by {
      TrimOfTrimmed(UniqueIdKey);
      assert ToLower(UniqueIdKey) == UniqueIdKey;
    }
    assert ks == ks[..1] + [ks[1]];
  }

  /** In the grid read from B1, the write to sheet cell B2 replaces grid cell [1][0], the name. */
  lemma OffsetWriteLands(values: seq<seq<string>>, o: Origin, col: nat, u: Update, t: Target)
    requires values == [["name", "unique id"], ["Ann", ""]] && o == Origin(1, 1) && col == 1
    requires ParseRange(u.range) == Some(t) && t.col == col && t.row == 2
    ensures ApplyAll(values, o, [u])[1] == [u.value, ""]
  {
    ApplyOne(values, o, u, t);
  }

  /** A single data row with a blank id cell gets exactly one write, with the first drawn id. */
  lemma OneBlankRow(rows: seq<seq<string>>, col: nat, sheet: string, o: Origin, draws: nat -> Suffix)
    requires BlankFlags(rows, col) == [true]
    ensures IdUpdates(rows, col, sheet, o, draws) == [UpdateFor(sheet, o, col, draws, 0, 0)]
  {
    assert [true][..0] == [];
    assert UpdatesOf([true][..0], col, sheet, o, draws) == [];
  }

  /** A batch of one update whose range parses is the write to the parsed cell. */
  lemma ApplyOne(values: seq<seq<string>>, o: Origin, u: Update, t: Target)
    requires ParseRange(u.range) == Some(t)
    ensures ApplyAll(values, o, [u]) == ApplyWrite(values, o, Write(t, u.value))
  {
    assert [u][..0] == [];
  }

  /** The cell that write names is B2, so its range is "Entries!B2:B2". */
  lemma BlankRowAddress()
    ensures A1(1, 2) == "B2" && CellRange("Entries", A1(1, 2)) == "Entries!B2:B2"
  {
    assert ColumnLetters(1) == "B" by { assert Letters(2) == Letters(0) + [Letter(1)]; }
    assert Decimal(2) == "2";
  }
}
