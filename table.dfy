/**
 * Spreadsheet values as the script sees them through pandas: a cell is
 * opaque except for its `str()` rendering, a row is a sequence of cells and
 * a table is a header plus rows.
 */
module Tables {

  datatype Option<+T> = None | Some(value: T)

  /**
   * A cell: either a string, or some other value (number, date, blank) known
   * only by an identity and the text `str()` gives for it.
   */
  datatype Cell = Text(text: string) | Value(id: nat, shown: string)

  type Row = seq<Cell>

  /** A pandas frame: column labels and rows of cells. */
  datatype Table = Table(columns: seq<string>, rows: seq<Row>)

  /** Every row has one cell per column, as in any pandas frame. */
  predicate WellFormed(t: Table) {
    forall i :: 0 <= i < |t.rows| ==> |t.rows[i]| == |t.columns|
  }

  /** `astype(str)` on one cell. */
  function AsStr(c: Cell): string {
    match c
    case Text(s) => s
    case Value(_, shown) => shown
  }

  /** The position of the first column labelled `name`. */
  function IndexOf(columns: seq<string>, name: string): (k: nat)
    requires name in columns
    ensures k < |columns| && columns[k] == name
    ensures forall j :: 0 <= j < k ==> columns[j] != name
  {
    if columns[0] == name then 0 else 1 + IndexOf(columns[1..], name)
  }
}
