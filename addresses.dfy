/**
 * The range strings the dashboard writes to: `<sheet>!<A1>:<A1>` for the
 * unique-id batch and `<sheet>!<A1>` for the mail-sent flag, and a reader
 * for them that shows each string names exactly one cell.
 */
module Addresses {
  import opened Text
  import opened Wrappers
  import opened Utils

  /** `range.split("!")[0]`: the sheet part of a configured range. */
  function SheetName(range: string): (sheet: string)
    ensures '!' !in sheet
  {
    BeforeSpec(range, '!');
    Before(range, '!')
  }

  /** `${sheet}!${a1}:${a1}`. */
  function CellRange(sheet: string, a1: string): string {
    sheet + "!" + a1 + ":" + a1
  }

  /** `${sheet}!${a1}`. */
  function CellRef(sheet: string, a1: string): string {
    sheet + "!" + a1
  }

  /** One cell of one sheet: a 0-based column and a 1-based row. */
  datatype Target = Target(sheet: string, col: nat, row: nat)

  function ParseA1Target(sheet: string, a1: string): Option<Target> {
    match ParseA1(a1)
    case None => None
    case Some(cr) => Some(Target(sheet, cr.0, cr.1))
  }

  /** Reads `<sheet>!<A1>` back into its cell. */
  function ParseCellRef(s: string): Option<Target> {
    var sheet := Before(s, '!');
    if |sheet| == |s| then None else ParseA1Target(sheet, s[|sheet| + 1..])
  }

  /** Reads a one-cell range `<sheet>!<A1>:<A1>` back into its cell. */
  function ParseRange(s: string): Option<Target> {
    var sheet := Before(s, '!');
    if |sheet| == |s| then None else ParseSpan(sheet, s[|sheet| + 1..])
  }

  /** The part after the `!`: two addresses of the same cell joined by a colon. */
  function ParseSpan(sheet: string, rest: string): Option<Target> {
    var a := Before(rest, ':');
    if |a| == |rest| then None
    else
      var from, to := ParseA1Target(sheet, a), ParseA1Target(sheet, rest[|a| + 1..]);
      if from.Some? && from == to then from else None
  }

  lemma ParseRangeSplit(sheet: string, rest: string)
    requires '!' !in sheet
    ensures ParseRange(sheet + "!" + rest) == ParseSpan(sheet, rest)
  {
    assert sheet + "!" + rest == sheet + ['!'] + rest;
    BeforeJoin(sheet, '!', rest);
    assert (sheet + "!" + rest)[|sheet| + 1..] == rest;
  }

  lemma ParseSpanSame(sheet: string, a1: string)
    requires ':' !in a1
    ensures ParseSpan(sheet, a1 + ":" + a1) == ParseA1Target(sheet, a1)
  {
    assert a1 + ":" + a1 == a1 + [':'] + a1;
    BeforeJoin(a1, ':', a1);
    assert (a1 + ":" + a1)[|a1| + 1..] == a1;
  }

  lemma A1Chars(col: nat, row: nat)
    ensures '!' !in A1(col, row) && ':' !in A1(col, row)
  {
    var l, d := ColumnLetters(col), Decimal(row);
    LettersUpper(col + 1);
    DecimalDigits(row);
    assert forall i :: 0 <= i < |l + d| ==> (l + d)[i] == if i < |l| then l[i] else d[i - |l|];
  }

  /** The one-cell range of cell (col, row) of `sheet` names that cell and no other. */
  lemma CellRangeRoundTrip(sheet: string, col: nat, row: nat)
    requires '!' !in sheet
    ensures ParseRange(CellRange(sheet, A1(col, row))) == Some(Target(sheet, col, row))
  {
    var a1 := A1(col, row);
    A1Chars(col, row);
    assert CellRange(sheet, a1) == sheet + "!" + (a1 + ":" + a1);
    ParseRangeSplit(sheet, a1 + ":" + a1);
    ParseSpanSame(sheet, a1);
    A1RoundTrip(col, row);
  }

  /** `CellRangeRoundTrip` for every cell of `sheet` at once. */
  lemma CellRangesRoundTrip(sheet: string)
    requires '!' !in sheet
    ensures forall col: nat, row: nat :: ParseRange(CellRange(sheet, A1(col, row))) == Some(Target(sheet, col, row))
  {
    forall col: nat, row: nat
      ensures ParseRange(CellRange(sheet, A1(col, row))) == Some(Target(sheet, col, row))
    {
      CellRangeRoundTrip(sheet, col, row);
    }
  }

  /** The reference `<sheet>!<A1>` of cell (col, row) names that cell and no other. */
  lemma CellRefRoundTrip(sheet: string, col: nat, row: nat)
    requires '!' !in sheet
    ensures ParseCellRef(CellRef(sheet, A1(col, row))) == Some(Target(sheet, col, row))
  {
    var a1 := A1(col, row);
    assert CellRef(sheet, a1) == sheet + ['!'] + a1;
    BeforeJoin(sheet, '!', a1);
    assert CellRef(sheet, a1)[|sheet| + 1..] == a1;
    A1RoundTrip(col, row);
  }
}
