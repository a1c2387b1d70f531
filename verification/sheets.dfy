/**
 * Spreadsheet sheets as the converter sees them through pandas, and the
 * carry-forward rule for the Type column shared by both sheet parsers.
 */
module Sheets {
  import opened Wrappers

  /** A calendar day: stands for the text `strftime('%Y-%m-%d')` renders for it. */
  datatype Day = Day(year: int, month: int, day: int)

  /**
   * One cell. `Blank` is a cell pandas reports as missing (`pd.isna`). For a
   * filled cell, `text` is `str(value)`, `number` is `float(value)`, `truth`
   * is `bool(value)` and `date` is the day when the value is a timestamp.
   */
  datatype Cell = Blank | Filled(text: string, number: real, truth: bool, date: Option<Day>)

  /** A sheet read with a header row: column labels (`str(label)`) and data rows, indexed from 0. */
  datatype Sheet = Sheet(columns: seq<string>, rows: seq<seq<Cell>>)

  /** The cell in column `j` of a row; a row has no cell beyond its columns. */
  function At(row: seq<Cell>, j: int): (c: Cell)
    ensures c.Filled? ==> 0 <= j < |row| && c == row[j]
  {
    if 0 <= j < |row| then row[j] else Blank
  }

  /** Position of the first column labelled `name`. */
  function ColumnOf(columns: seq<string>, name: string): (r: Option<nat>)
    ensures r.Some? ==> r.value < |columns| && columns[r.value] == name
    ensures r.Some? ==> forall j :: 0 <= j < r.value ==> columns[j] != name
    ensures r.None? <==> name !in columns
  {
    if columns == [] then None
    else if columns[0] == name then Some(0)
    else match ColumnOf(columns[1..], name)
      case None => None
      case Some(j) => Some(j + 1)
  }

  /** `row.get(name)`: the cell under column `name`, missing when the sheet has no such column. */
  function Get(columns: seq<string>, row: seq<Cell>, name: string): (c: Cell)
    ensures name !in columns ==> c.Blank?
  {
    match ColumnOf(columns, name)
    case None => Blank
    case Some(j) => At(row, j)
  }

  /** The text of a filled cell; None for a missing one. */
  function TextOf(c: Cell): (r: Option<string>)
    ensures r.Some? <==> c.Filled?
  {
    if c.Filled? then Some(c.text) else None
  }

  /** The two cells of a row the carry-forward rule looks at: the Variety and the Type. */
  datatype Line = Line(variety: Cell, kind: Cell)

  /** A row that sets `last_type`: it has both a Variety and a Type. */
  predicate Typed(l: Line) {
    l.variety.Filled? && l.kind.Filled?
  }

  /**
   * `last_type` on reaching row `n`, found by searching backwards: the Type of
   * the nearest earlier row that has both a Variety and a Type.
   */
  function CarriedInto(lines: seq<Line>, n: nat): Option<string>
    requires n <= |lines|
  {
    if n == 0 then None
    else if Typed(lines[n - 1]) then Some(lines[n - 1].kind.text)
    else CarriedInto(lines, n - 1)
  }

  /** Row `m` is the last row before `n` that sets `last_type`. */
  ghost predicate LatestTyped(lines: seq<Line>, n: nat, m: nat) {
    m < n <= |lines| && Typed(lines[m]) && forall k :: m < k < n ==> !Typed(lines[k])
  }

  /**
   * The carried type is missing exactly when no earlier row had both a Variety
   * and a Type; otherwise it is the Type of the most recent such row. Rows
   * without a Variety never influence it.
   */
  lemma {:induction false} CarriedIntoIsLatest(lines: seq<Line>, n: nat)
    requires n <= |lines|
    ensures CarriedInto(lines, n).None? <==> forall m :: 0 <= m < n ==> !Typed(lines[m])
    ensures forall m: nat :: LatestTyped(lines, n, m) ==> CarriedInto(lines, n) == Some(lines[m].kind.text)
  {
    if n > 0 && !Typed(lines[n - 1]) {
      CarriedIntoIsLatest(lines, n - 1);
      forall m: nat | LatestTyped(lines, n, m)
        ensures LatestTyped(lines, n - 1, m)
      {
      }
    } else if n > 0 {
      forall m: nat | LatestTyped(lines, n, m)
        ensures m == n - 1
      {
      }
    }
  }

  /** The plant type row `n` uses: its own Type when present, otherwise the carried one. */
  function TypeAt(lines: seq<Line>, n: nat): (t: Option<string>)
    requires n < |lines|
    ensures lines[n].kind.Filled? ==> t == Some(lines[n].kind.text)
  {
    if lines[n].kind.Filled? then Some(lines[n].kind.text) else CarriedInto(lines, n)
  }
}
